/** JSON pointers as cJSON_Utils builds and follows them (RFC 6901). */
module Pointer {
  import opened Basics
  import Decimal
  import opened SortList

  /** A tree whose nodes have an identity. */
  datatype Tree =
    | Leaf(id: nat)
    | Arr(id: nat, items: seq<Tree>)
    | Obj(id: nat, children: seq<Child>)

  datatype Child = Child(name: string, value: Tree)

  const SIZE_LIMIT: nat := 0x1_0000_0000_0000_0000

  // ----- names in pointers

  function Encode(name: string): string {
    if name == "" then ""
    else (if name[0] == '/' then "~1" else if name[0] == '~' then "~0" else [name[0]]) + Encode(name[1..])
  }

  /** What follows a path element: nothing or the next one. */
  predicate AtEnd(p: string) { p == "" || p[0] == '/' }

  /** `compare_pointers`: the name against the element at the start of the pointer. */
  predicate Matches(cs: bool, name: string, p: string)
    decreases |name|
  {
    if name == "" || AtEnd(p) then name == "" && AtEnd(p)
    else if p[0] == '~' then
      |p| > 1 && ((p[1] == '0' && name[0] == '~') || (p[1] == '1' && name[0] == '/')) && Matches(cs, name[1..], p[2..])
    else Fold(cs, name[0]) == Fold(cs, p[0]) && Matches(cs, name[1..], p[1..])
  }

  function SkipElement(p: string): (r: string)
    ensures AtEnd(r) && |r| <= |p|
  {
    if AtEnd(p) then p else SkipElement(p[1..])
  }

  /** The code's comparison of an encoded name is the comparison of names. */
  lemma {:induction false} MatchesEncoded(cs: bool, name: string, key: string, rest: string)
    requires AtEnd(rest)
    ensures Matches(cs, name, Encode(key) + rest) <==> Compare(cs, name, key) == 0
  {
    var p := Encode(key) + rest;
    if key == "" {
      assert p == rest;
    } else {
      var c := key[0];
      if c == '/' || c == '~' {
        assert p[0] == '~' && p[1] == (if c == '/' then '1' else '0') && p[2..] == Encode(key[1..]) + rest;
      } else {
        assert p[0] == c && p[1..] == Encode(key[1..]) + rest;
      }
      if name != "" { MatchesEncoded(cs, name[1..], key[1..], rest); }
    }
  }

  lemma {:induction false} SkipEncoded(key: string, rest: string)
    requires AtEnd(rest)
    ensures SkipElement(Encode(key) + rest) == rest
  {
    var p := Encode(key) + rest;
    if key == "" {
      assert p == rest;
    } else {
      SkipEncoded(key[1..], rest);
      var c := key[0];
      if c == '/' || c == '~' {
        assert p[0] == '~' && p[1..][0] != '/' && p[1..][1..] == Encode(key[1..]) + rest;
      } else {
        assert p[0] == c && p[1..] == Encode(key[1..]) + rest;
      }
    }
  }

  // ----- indices in pointers

  /** The path element at the start of a pointer. */
  function Element(p: string): (e: string)
    ensures e <= p && p == e + SkipElement(p) && '/' !in e
  {
    if AtEnd(p) then "" else [p[0]] + Element(p[1..])
  }

  /** An array index of section 4 of RFC 6901: digits without a leading zero. */
  function RfcIndex(e: string): Option<nat> {
    if e != "" && Decimal.AllDigits(e) && (e[0] != '0' || |e| == 1) then Some(Decimal.Value(e)) else None
  }

  /** Base ten over whatever characters the loop takes for digits, before wrapping. */
  function Sum(e: string): int {
    if e == "" then 0 else 10 * Sum(e[..|e| - 1]) + (e[|e| - 1] as int - 48)
  }

  predicate AllAtLeast0(e: string) { forall i :: 0 <= i < |e| ==> e[i] >= '0' }

  /** What `decode_array_index_from_pointer` makes of an element: its loop tests the upper bound on the
      first character only. */
  function Decode(e: string): Option<nat> {
    if |e| > 1 && e[0] == '0' then None
    else if e != "" && (e[0] > '9' || !AllAtLeast0(e)) then None
    else Some(Sum(e) % SIZE_LIMIT)
  }

  lemma {:induction false} SumOfDigits(e: string)
    requires Decimal.AllDigits(e)
    ensures Sum(e) == Decimal.Value(e)
  {
    if e != "" { SumOfDigits(e[..|e| - 1]); }
  }

  /** Not empty, no character past '9' among ones the loop takes, and not too large for 64 bits. */
  predicate GoodIndex(e: string) {
    && e != ""
    && !(AllAtLeast0(e) && '1' <= e[0] <= '9' && !Decimal.AllDigits(e))
    && (Decimal.AllDigits(e) && e[0] != '0' ==> Decimal.Value(e) < SIZE_LIMIT)
  }

  /** The code decodes exactly these elements as the standard does. */
  lemma DecodeExact(e: string)
    ensures Decode(e) == RfcIndex(e) <==> GoodIndex(e)
  {
    if Decimal.AllDigits(e) { SumOfDigits(e); }
    if |e| == 1 { assert e[..0] == ""; }
  }

  /** "1a" is read as element 59, "" as element 0. */
  lemma DecodeWrong()
    ensures Decode("1a") == Some(59) && RfcIndex("1a") == None
    ensures Decode("") == Some(0) && RfcIndex("") == None
  {
    assert "1a"[..1] == "1" && "1"[..0] == "";
    assert Sum("1") == 1 && Sum("1a") == 59;
    assert !Decimal.IsDigit("1a"[1]);
  }

  lemma DecodeUnsigned(n: nat)
    requires n < SIZE_LIMIT
    ensures Decode(Decimal.Unsigned(n)) == Some(n)
  {
    assert |Decimal.Unsigned(0)| == 1;
    hide Decimal.Unsigned, Decimal.Value, Decode, AllAtLeast0;
    var e := Decimal.Unsigned(n);
    Decimal.ValueOfUnsigned(n);
    Decimal.UnsignedHead(n);
    DecodeExact(e);
  }

  lemma DecodeNumber(n: nat, rest: string)
    requires n < SIZE_LIMIT && AtEnd(rest)
    ensures Element(Decimal.Unsigned(n) + rest) == Decimal.Unsigned(n) && Decode(Decimal.Unsigned(n)) == Some(n)
    ensures SkipElement(Decimal.Unsigned(n) + rest) == rest
  {
    hide Decimal.Unsigned, Decode, Element, SkipElement;
    DecodeUnsigned(n);
    assert Decimal.AllDigits(Decimal.Unsigned(n));
    ElementOf(Decimal.Unsigned(n), rest);
  }

  lemma {:induction false} ElementOf(e: string, rest: string)
    requires '/' !in e && AtEnd(rest)
    ensures Element(e + rest) == e && SkipElement(e + rest) == rest
  {
    if e == "" {
      assert e + rest == rest;
    } else {
      assert (e + rest)[1..] == e[1..] + rest;
      ElementOf(e[1..], rest);
      assert e == [e[0]] + e[1..];
    }
  }

  // ----- trees

  predicate DistinctNames(cs: bool, children: seq<Child>) {
    forall i, j :: 0 <= i < j < |children| ==> Compare(cs, children[i].name, children[j].name) != 0
  }

  /** Names are distinct in every object, and arrays are no longer than memory allows. */
  predicate Proper(cs: bool, t: Tree)
    decreases t
  {
    match t
    case Leaf(_) => true
    case Arr(_, items) => |items| < SIZE_LIMIT && forall i :: 0 <= i < |items| ==> Proper(cs, items[i])
    case Obj(_, children) => DistinctNames(cs, children) && forall i :: 0 <= i < |children| ==> Proper(cs, children[i].value)
  }

  predicate Holds(t: Tree, id: nat)
    decreases t
  {
    t.id == id ||
    match t
    case Leaf(_) => false
    case Arr(_, items) => exists i :: 0 <= i < |items| && Holds(items[i], id)
    case Obj(_, children) => exists i :: 0 <= i < |children| && Holds(children[i].value, id)
  }

  /** `cJSONUtils_FindPointerFromObjectTo`: the pointer to the node of an identity. */
  function FindPointer(t: Tree, id: nat): Option<string>
    decreases t, 0
  {
    if t.id == id then Some("") else
    match t
    case Leaf(_) => None
    case Arr(_, items) => FindInItems(items, 0, id)
    case Obj(_, children) => FindInChildren(children, id)
  }

  function FindInItems(items: seq<Tree>, index: nat, id: nat): Option<string>
    decreases items, 0
  {
    if items == [] then None
    else match FindPointer(items[0], id)
      case Some(path) => Some("/" + Decimal.Unsigned(index) + path)
      case None => FindInItems(items[1..], index + 1, id)
  }

  function FindInChildren(children: seq<Child>, id: nat): Option<string>
    decreases children, 0
  {
    if children == [] then None
    else match FindPointer(children[0].value, id)
      case Some(path) => Some("/" + Encode(children[0].name) + path)
      case None => FindInChildren(children[1..], id)
  }

  function FirstMatch(cs: bool, children: seq<Child>, p: string): (r: Option<Tree>)
  {
    if children == [] then None
    else if Matches(cs, children[0].name, p) then Some(children[0].value)
    else FirstMatch(cs, children[1..], p)
  }

  /** `get_item_from_pointer`. */
  function Resolve(cs: bool, t: Tree, p: string): Option<Tree>
    decreases |p|
  {
    if p == "" || p[0] != '/' then Some(t) else
    var rest := SkipElement(p[1..]);
    match t
    case Leaf(_) => None
    case Arr(_, items) =>
      (match Decode(Element(p[1..]))
       case None => None
       case Some(i) => if i < |items| then Resolve(cs, items[i], rest) else None)
    case Obj(_, children) =>
      (match FirstMatch(cs, children, p[1..])
       case None => None
       case Some(child) => Resolve(cs, child, rest))
  }

  // ----- round trip

  lemma {:induction false} FirstMatchIs(cs: bool, children: seq<Child>, k: nat, rest: string)
    requires k < |children| && DistinctNames(cs, children) && AtEnd(rest)
    ensures FirstMatch(cs, children, Encode(children[k].name) + rest) == Some(children[k].value)
  {
    MatchesEncoded(cs, children[0].name, children[k].name, rest);
    if k == 0 {
      CompareSwaps(cs, children[0].name, children[0].name);
    } else {
      FirstMatchIs(cs, children[1..], k - 1, rest);
    }
  }

  /** A path is empty or starts with a slash. */
  lemma {:induction false} FoundPath(t: Tree, id: nat)
    ensures FindPointer(t, id).Some? ==> AtEnd(FindPointer(t, id).value)
    ensures FindPointer(t, id).Some? <==> Holds(t, id)
    decreases t, 1
  {
    match t
    case Leaf(_) =>
    case Arr(_, items) => if t.id != id { var _ := FoundItem(items, 0, id); }
    case Obj(_, children) => if t.id != id { var _ := FoundChild(children, id); }
  }

  lemma {:induction false} FoundItem(items: seq<Tree>, index: nat, id: nat) returns (k: nat)
    ensures FindInItems(items, index, id).Some? <==> exists i :: 0 <= i < |items| && Holds(items[i], id)
    ensures FindInItems(items, index, id).Some? ==>
              && k < |items| && FindPointer(items[k], id).Some?
              && FindInItems(items, index, id).value == "/" + Decimal.Unsigned(index + k) + FindPointer(items[k], id).value
    decreases items, 1
  {
    k := 0;
    if items != [] {
      FoundPath(items[0], id);
      if FindPointer(items[0], id).None? {
        var j := FoundItem(items[1..], index + 1, id);
        k := j + 1;
        assert forall i :: 1 <= i < |items| ==> items[i] == items[1..][i - 1];
      }
    }
  }

  lemma {:induction false} FoundChild(children: seq<Child>, id: nat) returns (k: nat)
    ensures FindInChildren(children, id).Some? <==> exists i :: 0 <= i < |children| && Holds(children[i].value, id)
    ensures FindInChildren(children, id).Some? ==>
              && k < |children| && FindPointer(children[k].value, id).Some?
              && FindInChildren(children, id).value == "/" + Encode(children[k].name) + FindPointer(children[k].value, id).value
    decreases children, 1
  {
    k := 0;
    if children != [] {
      FoundPath(children[0].value, id);
      if FindPointer(children[0].value, id).None? {
        var j := FoundChild(children[1..], id);
        k := j + 1;
        assert forall i :: 1 <= i < |children| ==> children[i] == children[1..][i - 1];
      }
    }
  }

  lemma ResolveItem(cs: bool, id: nat, items: seq<Tree>, k: nat, path: string)
    requires k < |items| < SIZE_LIMIT && AtEnd(path)
    ensures Resolve(cs, Arr(id, items), "/" + Decimal.Unsigned(k) + path) == Resolve(cs, items[k], path)
  {
    hide Decimal.Unsigned, Decode, Element, SkipElement;
    var p := "/" + Decimal.Unsigned(k) + path;
    assert p[0] == '/' && p[1..] == Decimal.Unsigned(k) + path;
    DecodeNumber(k, path);
  }

  lemma ResolveChild(cs: bool, id: nat, children: seq<Child>, k: nat, path: string)
    requires k < |children| && DistinctNames(cs, children) && AtEnd(path)
    ensures Resolve(cs, Obj(id, children), "/" + Encode(children[k].name) + path) == Resolve(cs, children[k].value, path)
  {
    hide Encode, FirstMatch, SkipElement, DistinctNames;
    var p := "/" + Encode(children[k].name) + path;
    assert p[0] == '/' && p[1..] == Encode(children[k].name) + path;
    FirstMatchIs(cs, children, k, path);
    SkipEncoded(children[k].name, path);
  }

  /** The pointer built to a node leads back to that node, whatever its names contain. */
  lemma {:induction false} PointerResolves(cs: bool, t: Tree, id: nat)
    requires Proper(cs, t) && FindPointer(t, id).Some?
    ensures Resolve(cs, t, FindPointer(t, id).value).Some?
    ensures Resolve(cs, t, FindPointer(t, id).value).value.id == id
    decreases t
  {
    if t.id != id {
      hide Resolve, FindInItems, FindInChildren, DistinctNames, Decimal.Unsigned, Encode;
      match t
      case Arr(_, items) =>
        var k := FoundItem(items, 0, id);
        FoundPath(items[k], id);
        PointerResolves(cs, items[k], id);
        ResolveItem(cs, t.id, items, k, FindPointer(items[k], id).value);
      case Obj(_, children) =>
        var k := FoundChild(children, id);
        FoundPath(children[k].value, id);
        PointerResolves(cs, children[k].value, id);
        ResolveChild(cs, t.id, children, k, FindPointer(children[k].value, id).value);
    }
  }

  // ----- the standard's resolution

  /** The name a path element stands for by section 4 of RFC 6901; none if a tilde is not followed by 0 or 1. */
  function RfcName(e: string): Option<string>
    decreases |e|
  {
    if e == "" then Some("")
    else if e[0] != '~' then Prefixed([e[0]], RfcName(e[1..]))
    else if |e| > 1 && e[1] == '0' then Prefixed("~", RfcName(e[2..]))
    else if |e| > 1 && e[1] == '1' then Prefixed("/", RfcName(e[2..]))
    else None
  }

  function Prefixed(s: string, r: Option<string>): Option<string> {
    match r
    case None => None
    case Some(t) => Some(s + t)
  }

  /** How many members have a name. */
  function Occurs(children: seq<Child>, name: string): nat {
    if children == [] then 0 else (if children[0].name == name then 1 else 0) + Occurs(children[1..], name)
  }

  function FirstNamed(children: seq<Child>, name: string): Option<Tree> {
    if children == [] then None
    else if children[0].name == name then Some(children[0].value)
    else FirstNamed(children[1..], name)
  }

  /** The member a name refers to; evaluation fails if the name is not unique. */
  function Named(children: seq<Child>, name: string): Option<Tree> {
    if Occurs(children, name) == 1 then FirstNamed(children, name) else None
  }

  /** Sections 3 and 4 of RFC 6901. */
  function RfcResolve(t: Tree, p: string): Option<Tree>
    decreases |p|
  {
    if p == "" then Some(t)
    else if p[0] != '/' then None
    else
      var e, rest := Element(p[1..]), SkipElement(p[1..]);
      match t
      case Leaf(_) => None
      case Arr(_, items) =>
        (match RfcIndex(e)
         case None => None
         case Some(i) => if i < |items| then RfcResolve(items[i], rest) else None)
      case Obj(_, children) =>
        (match RfcName(e)
         case None => None
         case Some(name) =>
           match Named(children, name)
           case None => None
           case Some(child) => RfcResolve(child, rest))
  }

  lemma {:induction false} MatchesName(name: string, p: string)
    ensures Matches(true, name, p) <==> RfcName(Element(p)) == Some(name)
    decreases |name|
  {
    var e := Element(p);
    if !AtEnd(p) {
      assert e[0] == p[0] && e[1..] == Element(p[1..]);
      if p[0] == '~' {
        ElementSecond(p);
        if |e| > 1 {
          assert e[2..] == e[1..][1..] && p[2..] == p[1..][1..];
          if name != "" { MatchesName(name[1..], p[2..]); }
        }
      } else if name != "" {
        MatchesName(name[1..], p[1..]);
      }
      NameHead(e, name);
    }
  }

  lemma ElementSecond(p: string)
    requires !AtEnd(p)
    ensures |Element(p)| > 1 <==> |p| > 1 && p[1] != '/'
    ensures |Element(p)| > 1 ==> Element(p)[1] == p[1] && Element(p)[1..][1..] == Element(p[1..][1..])
  {
    assert Element(p)[1..] == Element(p[1..]);
    if !AtEnd(p[1..]) { assert Element(p[1..])[1..] == Element(p[1..][1..]); }
  }

  /** The name of an element begins with what its first character or escape stands for. */
  lemma NameHead(e: string, name: string)
    requires e != ""
    ensures RfcName(e) == Some(name) <==>
            && name != ""
            && if e[0] != '~' then name[0] == e[0] && RfcName(e[1..]) == Some(name[1..])
               else |e| > 1 && ((e[1] == '0' && name[0] == '~') || (e[1] == '1' && name[0] == '/')) && RfcName(e[2..]) == Some(name[1..])
  {
    if name != "" { assert name == [name[0]] + name[1..]; }
  }

  lemma {:induction false} FirstMatchNamed(children: seq<Child>, p: string)
    ensures FirstMatch(true, children, p) ==
            match RfcName(Element(p)) case None => None case Some(name) => FirstNamed(children, name)
  {
    hide Matches, Element, RfcName;
    if children != [] {
      MatchesName(children[0].name, p);
      FirstMatchNamed(children[1..], p);
    }
  }

  /** Arrays are no longer than memory allows. */
  predicate Fits(t: Tree)
    decreases t
  {
    match t
    case Leaf(_) => true
    case Arr(_, items) => |items| < SIZE_LIMIT && forall i :: 0 <= i < |items| ==> Fits(items[i])
    case Obj(_, children) => forall i :: 0 <= i < |children| ==> Fits(children[i].value)
  }

  /** The pointer is empty or starts with a slash, and on its way no array is entered by an element that is
      empty, has a character past '9' behind a digit, or is too large, and no object by a name it has twice. */
  predicate Straight(t: Tree, p: string)
    decreases |p|
  {
    if p == "" then true
    else if p[0] != '/' then false
    else
      var e, rest := Element(p[1..]), SkipElement(p[1..]);
      match t
      case Leaf(_) => true
      case Arr(_, items) =>
        (match Decode(e)
         case None => true
         case Some(i) => if i < |items| then GoodIndex(e) && Straight(items[i], rest) else true)
      case Obj(_, children) =>
        match RfcName(e)
        case None => true
        case Some(name) =>
          match FirstNamed(children, name)
          case None => true
          case Some(child) => Occurs(children, name) == 1 && Straight(child, rest)
  }

  lemma {:induction false} NamedFits(children: seq<Child>, p: string)
    requires forall i :: 0 <= i < |children| ==> Fits(children[i].value)
    ensures FirstMatch(true, children, p).Some? ==> Fits(FirstMatch(true, children, p).value)
  {
    hide Matches;
    if children != [] { NamedFits(children[1..], p); }
  }

  /** Following a straight pointer case-sensitively finds what the standard says; on the others the standard
      finds nothing. So the two agree exactly on the pointers that are straight or on which the code finds
      nothing. */
  lemma {:induction false} ResolveExactly(t: Tree, p: string)
    requires Fits(t)
    ensures RfcResolve(t, p) == if Straight(t, p) then Resolve(true, t, p) else None
    ensures RfcResolve(t, p) == Resolve(true, t, p) <==> Straight(t, p) || Resolve(true, t, p).None?
    decreases |p|
  {
    if p != "" && p[0] == '/' {
      hide Decode, Element, SkipElement, FirstMatch, RfcIndex, RfcName, GoodIndex, FirstNamed, Occurs, Fits;
      var e, rest := Element(p[1..]), SkipElement(p[1..]);
      match t
      case Leaf(_) =>
      case Arr(_, items) =>
        FitsItems(t);
        IndexExactly(e);
        if Decode(e).Some? && Decode(e).value < |items| { ResolveExactly(items[Decode(e).value], rest); }
      case Obj(_, children) =>
        FitsItems(t);
        FirstMatchNamed(children, p[1..]);
        NamedFits(children, p[1..]);
        if RfcName(e).Some? { OccursOnce(children, RfcName(e).value); }
        if FirstMatch(true, children, p[1..]).Some? { ResolveExactly(FirstMatch(true, children, p[1..]).value, rest); }
    }
  }

  lemma {:induction false} OccursOnce(children: seq<Child>, name: string)
    ensures FirstNamed(children, name).Some? <==> Occurs(children, name) > 0
  {
    if children != [] { OccursOnce(children[1..], name); }
  }

  /** With a name twice the code takes the first member, the standard none. */
  lemma TwiceNamed()
    ensures var t := Obj(0, [Child("a", Leaf(1)), Child("a", Leaf(2))]);
            Resolve(true, t, "/a") == Some(Leaf(1)) && RfcResolve(t, "/a").None? && !Straight(t, "/a")
  {
    var children := [Child("a", Leaf(1)), Child("a", Leaf(2))];
    assert "/a"[1..] == "a" && "a"[1..] == "" && "a" + "" == "a";
    assert Element("") == "" && Element("a") == "a" && SkipElement("a") == "";
    assert RfcName("") == Some("") && RfcName("a") == Some("a");
    assert children[1..] == [Child("a", Leaf(2))] && children[1..][1..] == [];
    assert Occurs(children[1..], "a") == 1 && Occurs(children, "a") == 2;
    assert Matches(true, "", "") && Matches(true, "a", "a");
  }

  lemma FitsItems(t: Tree)
    requires Fits(t)
    ensures t.Arr? ==> |t.items| < SIZE_LIMIT && forall i :: 0 <= i < |t.items| ==> Fits(t.items[i])
    ensures t.Obj? ==> forall i :: 0 <= i < |t.children| ==> Fits(t.children[i].value)
  {
  }

  lemma IndexExactly(e: string)
    ensures GoodIndex(e) ==> Decode(e) == RfcIndex(e)
    ensures !GoodIndex(e) ==> RfcIndex(e).None? || RfcIndex(e).value >= SIZE_LIMIT
  {
    DecodeExact(e);
  }

  // ----- the code

  /** `compare_pointers`. */
  method ComparePointers(name: string, pointer: string, cs: bool) returns (same: bool)
    ensures same == Matches(cs, name, pointer)
  {
    var i, j := 0, 0;
    assert name[0..] == name && pointer[0..] == pointer;
    while i < |name| && j < |pointer| && pointer[j] != '/'
      invariant 0 <= i <= |name| && 0 <= j <= |pointer|
      invariant Matches(cs, name, pointer) == Matches(cs, name[i..], pointer[j..])
    {
      assert name[i..][1..] == name[i + 1..] && pointer[j..][1..] == pointer[j + 1..];
      if pointer[j] == '~' {
        if !(j + 1 < |pointer| && pointer[j + 1] == '0' && name[i] == '~')
           && !(j + 1 < |pointer| && pointer[j + 1] == '1' && name[i] == '/') {
          return false;
        }
        assert pointer[j..][2..] == pointer[j + 2..];
        j := j + 1;
      } else if Fold(cs, name[i]) != Fold(cs, pointer[j]) {
        return false;
      }
      i, j := i + 1, j + 1;
    }
    same := (j < |pointer| && pointer[j] != '/') == (i < |name|);
  }

  /** `pointer_encoded_length` and `encode_string_as_pointer` into that many bytes and a NUL. */
  method EncodeString(source: string) returns (destination: array<char>)
    ensures destination[..] == Encode(source) + "\0"
  {
    var length := EncodedLength(source);
    destination := new char[length + 1];
    var i, d := 0, 0;
    assert source[0..] == source;
    while i < |source|
      invariant 0 <= i <= |source| && 0 <= d <= length
      invariant destination[..d] + Encode(source[i..]) == Encode(source)
    {
      assert source[i..][1..] == source[i + 1..];
      ghost var before := destination[..d];
      Assoc(before, (if source[i] == '/' then "~1" else if source[i] == '~' then "~0" else [source[i]]), Encode(source[i + 1..]));
      if source[i] == '/' || source[i] == '~' {
        destination[d], destination[d + 1] := '~', if source[i] == '/' then '1' else '0';
        assert destination[..d + 2] == before + (if source[i] == '/' then "~1" else "~0");
        d := d + 2;
      } else {
        destination[d] := source[i];
        assert destination[..d + 1] == before + [source[i]];
        d := d + 1;
      }
      i := i + 1;
    }
    destination[d] := '\0';
    assert destination[..] == destination[..d] + "\0";
  }

  method EncodedLength(s: string) returns (length: nat)
    ensures length == |Encode(s)|
  {
    var i := 0;
    length := 0;
    assert s[0..] == s;
    while i < |s|
      invariant 0 <= i <= |s| && length + |Encode(s[i..])| == |Encode(s)|
    {
      assert s[i..][1..] == s[i + 1..];
      if s[i] == '~' || s[i] == '/' { length := length + 1; }
      i, length := i + 1, length + 1;
    }
  }

  lemma {:induction false} ElementPrefix(p: string, k: nat)
    requires k <= |p| && '/' !in p[..k]
    ensures k <= |Element(p)| && Element(p)[..k] == p[..k]
    ensures k == |Element(p)| <==> k == |p| || p[k] == '/'
  {
    if k > 0 {
      assert p[..k][0] == p[0] && p[..k][1..] == p[1..][..k - 1];
      ElementPrefix(p[1..], k - 1);
      assert Element(p)[..k] == [p[0]] + Element(p[1..])[..k - 1];
    }
  }

  lemma {:induction false} SumNat(e: string)
    requires AllAtLeast0(e)
    ensures Sum(e) >= 0
  {
    if e != "" { SumNat(e[..|e| - 1]); }
  }

  lemma WrapStep(total: nat, wrapped: nat, d: nat)
    requires wrapped == total % SIZE_LIMIT
    ensures (10 * wrapped + d) % SIZE_LIMIT == (10 * total + d) % SIZE_LIMIT
  {
    var q := total / SIZE_LIMIT;
    assert 10 * total + d == 10 * wrapped + d + 10 * q * SIZE_LIMIT;
    AddMultiple(10 * wrapped + d, 10 * q);
  }

  lemma {:induction false} AddMultiple(n: nat, k: nat)
    ensures (n + k * SIZE_LIMIT) % SIZE_LIMIT == n % SIZE_LIMIT
  {
    if k > 0 {
      AddMultiple(n, k - 1);
      assert n + k * SIZE_LIMIT == n + (k - 1) * SIZE_LIMIT + SIZE_LIMIT;
    }
  }

  /** `decode_array_index_from_pointer`, in size_t arithmetic. */
  method DecodeArrayIndex(pointer: string) returns (index: Option<nat>)
    ensures index == Decode(Element(pointer))
  {
    hide Element, Sum;
    ghost var e := Element(pointer);
    if |pointer| > 1 && pointer[0] == '0' && pointer[1] != '/' {
      ElementPrefix(pointer, 1);
      assert e[..1] == pointer[..1];
      return None;
    }
    var parsed, position := 0, 0;
    SumEmpty();
    while position < |pointer| && pointer[position] >= '0' && pointer[0] <= '9'
      invariant 0 <= position <= |pointer| && AllAtLeast0(pointer[..position])
      invariant position > 0 ==> pointer[0] <= '9'
      invariant parsed == Sum(pointer[..position]) % SIZE_LIMIT
    {
      SumNat(pointer[..position]);
      SumNext(pointer, position);
      WrapStep(Sum(pointer[..position]), parsed, pointer[position] as int - 48);
      parsed := (10 * parsed + (pointer[position] as int - 48)) % SIZE_LIMIT;
      position := position + 1;
    }
    ElementPrefix(pointer, position);
    if position < |pointer| && pointer[position] != '/' {
      DecodeStops(pointer, position);
      return None;
    }
    assert e == e[..position] == pointer[..position];
    ElementShort(pointer);
    index := Some(parsed);
  }

  lemma SumEmpty()
    ensures Sum("") == 0
  {
  }

  lemma SumNext(p: string, k: nat)
    requires k < |p|
    ensures Sum(p[..k + 1]) == 10 * Sum(p[..k]) + (p[k] as int - 48)
  {
    assert p[..k + 1][..k] == p[..k];
  }

  /** The loop stopped inside the element. */
  lemma DecodeStops(p: string, k: nat)
    requires k < |p| && p[k] != '/' && '/' !in p[..k] && (p[k] < '0' || p[0] > '9')
    ensures Decode(Element(p)) == None
  {
    hide Element, Sum;
    assert p[..k + 1] == p[..k] + [p[k]];
    ElementPrefix(p, k + 1);
    ElementPrefix(p, 1);
    var e := Element(p);
    assert e[k] == e[..k + 1][k] == p[..k + 1][k] == p[k];
    assert e[0] == e[..1][0] == p[..1][0] == p[0];
    if p[k] < '0' { assert !AllAtLeast0(e); }
  }

  lemma ElementShort(p: string)
    requires !(|p| > 1 && p[0] == '0' && p[1] != '/')
    ensures !(|Element(p)| > 1 && Element(p)[0] == '0')
  {
    if |p| > 1 && p[0] == '0' { ElementPrefix(p, 1); }
  }

  /** `get_item_from_pointer`. */
  method GetItemFromPointer(root: Tree, pointer: string, cs: bool) returns (current: Option<Tree>)
    ensures current == Resolve(cs, root, pointer)
  {
    hide Element, SkipElement, Decode, FirstMatch;
    var here, p := root, pointer;
    while p != "" && p[0] == '/'
      invariant Resolve(cs, root, pointer) == Resolve(cs, here, p)
      decreases |p|
    {
      p := p[1..];
      match here {
      case Leaf(_) => return None;
      case Arr(_, items) =>
        var index := DecodeArrayIndex(p);
        if index == None || index.value >= |items| { return None; }
        here := items[index.value];
      case Obj(_, children) =>
        var found := FindMatch(children, p, cs);
        if found == None { return None; }
        here := found.value;
      }
      p := Skip(p);
    }
    current := Some(here);
  }

  method FindMatch(children: seq<Child>, p: string, cs: bool) returns (found: Option<Tree>)
    ensures found == FirstMatch(cs, children, p)
  {
    var i := 0;
    assert children[0..] == children;
    while i < |children|
      invariant 0 <= i <= |children| && FirstMatch(cs, children, p) == FirstMatch(cs, children[i..], p)
    {
      assert children[i..][1..] == children[i + 1..];
      var same := ComparePointers(children[i].name, p, cs);
      if same { return Some(children[i].value); }
      i := i + 1;
    }
    return None;
  }

  method Skip(p: string) returns (rest: string)
    ensures rest == SkipElement(p)
  {
    rest := p;
    while rest != "" && rest[0] != '/'
      invariant SkipElement(rest) == SkipElement(p)
      decreases |rest|
    {
      rest := rest[1..];
    }
  }
}
