/** Comparing JSON values: by looking names up both ways, and by sorting both objects and walking them in
    step. */
module CompareJson {
  import opened Basics
  import opened Json
  import opened SortList

  const INT_MIN: int := -0x8000_0000

  /** The saturated integer cJSON keeps beside each number; C truncates towards zero. */
  function ValueInt(d: real): int {
    if d >= INT_MAX as real then INT_MAX
    else if d <= INT_MIN as real then INT_MIN
    else if d >= 0.0 then d.Floor else -((-d).Floor)
  }

  function Key(m: Member): string { m.key }

  predicate SameName(cs: bool, a: Member, b: Member) { Compare(cs, a.key, b.key) == 0 }

  // ----- names

  /** No two members of an object have the same name, at any depth. */
  predicate DistinctNames(cs: bool, members: seq<Member>) {
    forall i, j :: 0 <= i < j < |members| ==> !SameName(cs, members[i], members[j])
  }

  predicate Proper(cs: bool, v: Json)
    decreases v
  {
    match v
    case Array(items) => forall i :: 0 <= i < |items| ==> Proper(cs, items[i])
    case Object(members) =>
      DistinctNames(cs, members) && forall i :: 0 <= i < |members| ==> Proper(cs, members[i].value)
    case _ => true
  }

  /** `get_object_item`: the first member of the name. */
  function GetItem(cs: bool, members: seq<Member>, name: string): (r: Option<Member>)
    ensures r.Some? ==> r.value in members && Compare(cs, name, r.value.key) == 0
    ensures r.None? ==> forall m :: m in members ==> Compare(cs, name, m.key) != 0
  {
    if members == [] then None
    else if Compare(cs, name, members[0].key) == 0 then Some(members[0])
    else GetItem(cs, members[1..], name)
  }

  // ----- cJSON_Compare

  function Size(v: Json): nat
    decreases v
  {
    match v
    case Array(items) => 1 + SizeItems(items)
    case Object(members) => 1 + SizeMembers(members)
    case _ => 0
  }

  function SizeItems(items: seq<Json>): nat
    decreases items
  {
    if items == [] then 0 else 1 + Size(items[0]) + SizeItems(items[1..])
  }

  function SizeMembers(members: seq<Member>): nat
    decreases members
  {
    if members == [] then 0 else 1 + Size(members[0].value) + SizeMembers(members[1..])
  }

  lemma {:induction false} ItemSmaller(items: seq<Json>, i: nat)
    requires i < |items|
    ensures Size(items[i]) < SizeItems(items)
  {
    if i > 0 { ItemSmaller(items[1..], i - 1); }
  }

  lemma {:induction false} MemberSmaller(members: seq<Member>, m: Member)
    requires m in members
    ensures Size(m.value) < SizeMembers(members)
  {
    if m != members[0] { MemberSmaller(members[1..], m); }
  }

  /** The answer of `cJSON_Compare`; with `ints` the integer values of numbers must agree too. */
  predicate Same(ints: bool, cs: bool, a: Json, b: Json)
    decreases Size(a) + Size(b), 2
  {
    match (a, b)
    case (Number(d), Number(e)) => Close(d, e) && (ints ==> ValueInt(d) == ValueInt(e))
    case (Text(s), Text(t)) => s == t
    case (Array(items), Array(others)) =>
      |items| == |others| && forall i :: 0 <= i < |items| ==> SameAt(ints, cs, items, others, i)
    case (Object(members), Object(others)) =>
      && (forall m :: m in members ==> Found(ints, cs, m, members, others))
      && (forall m :: m in others ==> Found(ints, cs, m, others, members))
    case _ => a == b && !a.Number? && !a.Text? && !a.Array? && !a.Object?
  }

  predicate SameAt(ints: bool, cs: bool, items: seq<Json>, others: seq<Json>, i: nat)
    requires i < |items| && |items| == |others|
    decreases SizeItems(items) + SizeItems(others), 1
  {
    ItemSmaller(items, i);
    ItemSmaller(others, i);
    Same(ints, cs, items[i], others[i])
  }

  /** The member's name is looked up among the others and the values compared. */
  predicate Found(ints: bool, cs: bool, m: Member, members: seq<Member>, others: seq<Member>)
    requires m in members
    decreases SizeMembers(members) + SizeMembers(others), 1
  {
    match GetItem(cs, others, m.key)
    case None => false
    case Some(n) =>
      MemberSmaller(members, m);
      MemberSmaller(others, n);
      Same(ints, cs, m.value, n.value)
  }

  // ----- values as maps

  /** A value without the order of its members. */
  datatype Meaning =
    | Atom(v: Json)
    | List(items: seq<Meaning>)
    | Map(members: map<string, Meaning>)

  function MeaningOf(v: Json): Meaning
    decreases v
  {
    match v
    case Array(items) => List(ItemMeanings(items))
    case Object(members) => Map(MemberMeanings(members))
    case _ => Atom(v)
  }

  function ItemMeanings(items: seq<Json>): (r: seq<Meaning>)
    ensures |r| == |items| && forall i :: 0 <= i < |items| ==> r[i] == MeaningOf(items[i])
    decreases items
  {
    if items == [] then [] else [MeaningOf(items[0])] + ItemMeanings(items[1..])
  }

  function MemberMeanings(members: seq<Member>): map<string, Meaning>
    decreases members
  {
    if members == [] then map[] else MemberMeanings(members[1..])[members[0].key := MeaningOf(members[0].value)]
  }

  // ----- looking names up

  lemma CompareSelf(cs: bool, a: string)
    ensures Compare(cs, a, a) == 0
  {
    CompareSwaps(cs, a, a);
  }

  lemma CompareBoth(cs: bool, a: string, b: string, c: string)
    requires Compare(cs, a, b) == 0 && Compare(cs, a, c) == 0
    ensures Compare(cs, b, c) == 0
  {
    CompareSwaps(cs, a, b);
    CompareSwaps(cs, a, c);
    CompareTrans(cs, b, a, c);
    CompareTrans(cs, c, a, b);
    CompareSwaps(cs, b, c);
  }

  lemma OneOfAName(cs: bool, members: seq<Member>, m: Member, n: Member)
    requires DistinctNames(cs, members) && m in members && n in members && SameName(cs, m, n)
    ensures m == n
  {
    var i, j :| 0 <= i < |members| && 0 <= j < |members| && members[i] == m && members[j] == n;
    CompareSwaps(cs, m.key, n.key);
  }

  lemma GetItemIs(cs: bool, members: seq<Member>, name: string, n: Member)
    requires DistinctNames(cs, members) && n in members && Compare(cs, name, n.key) == 0
    ensures GetItem(cs, members, name) == Some(n)
  {
    var r := GetItem(cs, members, name).value;
    CompareBoth(cs, name, r.key, n.key);
    OneOfAName(cs, members, r, n);
  }

  /** `cJSON_Compare` does not depend on the order of its arguments. */
  lemma {:induction false} SameSwaps(ints: bool, cs: bool, a: Json, b: Json)
    ensures Same(ints, cs, a, b) <==> Same(ints, cs, b, a)
    decreases a
  {
    match (a, b)
    case (Array(items), Array(others)) =>
      if |items| == |others| {
        forall i | 0 <= i < |items| ensures SameAt(ints, cs, items, others, i) <==> SameAt(ints, cs, others, items, i) {
          SameSwaps(ints, cs, items[i], others[i]);
        }
      }
    case _ =>
  }

  // ----- sorted members in step

  predicate Has(cs: bool, m: Member, others: seq<Member>) {
    exists n :: n in others && SameName(cs, m, n)
  }

  predicate InStep(cs: bool, p: seq<Member>, q: seq<Member>) {
    |p| == |q| && forall i :: 0 <= i < |p| ==> SameName(cs, p[i], q[i])
  }

  lemma HeadsAgree(cs: bool, p: seq<Member>, q: seq<Member>)
    requires p != [] && q != [] && Ordered(Key, cs, p) && Ordered(Key, cs, q)
    requires Has(cs, p[0], q) && Has(cs, q[0], p)
    ensures SameName(cs, p[0], q[0])
  {
    var n :| n in q && SameName(cs, p[0], n);
    var m :| m in p && SameName(cs, q[0], m);
    CompareSwaps(cs, p[0].key, n.key);
    CompareSwaps(cs, q[0].key, m.key);
    CompareSelf(cs, p[0].key);
    CompareSelf(cs, q[0].key);
    LowestFirst(Key, cs, p, p[0], m);
    LowestFirst(Key, cs, q, q[0], n);
    CompareTrans(cs, p[0].key, m.key, q[0].key);
    CompareTrans(cs, q[0].key, n.key, p[0].key);
    CompareSwaps(cs, p[0].key, q[0].key);
  }

  lemma HasInTail(cs: bool, m: Member, p: seq<Member>, q: seq<Member>)
    requires p != [] && q != [] && DistinctNames(cs, p) && m in p[1..] && Has(cs, m, q) && SameName(cs, p[0], q[0])
    ensures Has(cs, m, q[1..])
  {
    var n :| n in q && SameName(cs, m, n);
    var i :| 0 <= i < |p[1..]| && p[1..][i] == m;
    assert !SameName(cs, p[0], p[i + 1]);
    CompareSwaps(cs, m.key, n.key);
    CompareSwaps(cs, p[0].key, n.key);
    if n == q[0] { CompareBoth(cs, n.key, p[0].key, m.key); }
    assert n in q[1..];
  }

  lemma Tails(cs: bool, p: seq<Member>)
    requires Ordered(Key, cs, p) && DistinctNames(cs, p) && p != []
    ensures Ordered(Key, cs, p[1..]) && DistinctNames(cs, p[1..])
  {
  }

  lemma InStepCons(cs: bool, p: seq<Member>, q: seq<Member>)
    requires p != [] && q != [] && SameName(cs, p[0], q[0]) && InStep(cs, p[1..], q[1..])
    ensures InStep(cs, p, q)
  {
    forall i | 0 <= i < |p| ensures SameName(cs, p[i], q[i]) {
      if i > 0 { assert SameName(cs, p[1..][i - 1], q[1..][i - 1]); }
    }
  }

  lemma HasSome(cs: bool, m: Member, q: seq<Member>)
    requires Has(cs, m, q)
    ensures q != []
  {
  }

  /** Two ordered lists with the same names, each once, go in step. */
  lemma {:induction false} SortedInStep(cs: bool, p: seq<Member>, q: seq<Member>)
    requires Ordered(Key, cs, p) && Ordered(Key, cs, q) && DistinctNames(cs, p) && DistinctNames(cs, q)
    requires (forall m :: m in p ==> Has(cs, m, q)) && (forall m :: m in q ==> Has(cs, m, p))
    ensures InStep(cs, p, q)
  {
    hide Ordered, DistinctNames, Has;
    if p != [] && q != [] {
      HeadsAgree(cs, p, q);
      CompareSwaps(cs, p[0].key, q[0].key);
      forall m | m in p[1..] ensures Has(cs, m, q[1..]) { HasInTail(cs, m, p, q); }
      forall m | m in q[1..] ensures Has(cs, m, p[1..]) { HasInTail(cs, m, q, p); }
      Tails(cs, p);
      Tails(cs, q);
      SortedInStep(cs, p[1..], q[1..]);
      InStepCons(cs, p, q);
    } else if p != [] {
      HasSome(cs, p[0], q);
    } else if q != [] {
      HasSome(cs, q[0], p);
    }
  }

  // ----- sorting members

  lemma Sorted(cs: bool, members: seq<Member>)
    requires DistinctNames(cs, members)
    ensures var p := Sort(Key, cs, members);
            && |p| == |members| && Ordered(Key, cs, p) && DistinctNames(cs, p)
            && forall m :: m in p <==> m in members
  {
    hide Ordered, Sort, DistinctNames;
    var p := Sort(Key, cs, members);
    SortSorts(Key, cs, members);
    assert |p| == |multiset(p)| && |members| == |multiset(members)|;
    forall m ensures m in p <==> m in members { assert m in p <==> m in multiset(p); }
    DistinctPermuted(cs, members, p);
  }

  lemma DistinctPermuted(cs: bool, p: seq<Member>, q: seq<Member>)
    requires DistinctNames(cs, p) && multiset(p) == multiset(q)
    ensures DistinctNames(cs, q)
  {
    forall i, j | 0 <= i < j < |q| ensures !SameName(cs, q[i], q[j]) {
      assert q[i] in multiset(p) && q[j] in multiset(p);
      if SameName(cs, q[i], q[j]) {
        OneOfAName(cs, p, q[i], q[j]);
        TwiceIn(q, i, j);
        OnceIn(cs, p, q[i]);
      }
    }
  }

  lemma TwiceIn(q: seq<Member>, i: nat, j: nat)
    requires i < j < |q| && q[i] == q[j]
    ensures multiset(q)[q[i]] >= 2
  {
    assert q == q[..j] + [q[j]] + q[j + 1..];
    assert q[..j][i] == q[i] && q[i] in multiset(q[..j]);
  }

  lemma {:induction false} OnceIn(cs: bool, p: seq<Member>, m: Member)
    requires DistinctNames(cs, p)
    ensures multiset(p)[m] <= 1
  {
    if p != [] {
      OnceIn(cs, p[1..], m);
      assert p == [p[0]] + p[1..];
      if m == p[0] && m in p[1..] {
        var k :| 0 <= k < |p[1..]| && p[1..][k] == m;
        assert !SameName(cs, p[0], p[k + 1]);
        CompareSelf(cs, m.key);
      }
    }
  }

  // ----- the two comparisons agree

  /** What the walk over sorted members checks. */
  predicate Agree(ints: bool, cs: bool, p: seq<Member>, q: seq<Member>) {
    InStep(cs, p, q) && forall i :: 0 <= i < |p| ==> Same(ints, cs, p[i].value, q[i].value)
  }

  lemma FoundHas(ints: bool, cs: bool, m: Member, members: seq<Member>, others: seq<Member>, sorted: seq<Member>)
    requires m in members && Found(ints, cs, m, members, others) && forall n :: n in sorted <==> n in others
    ensures Has(cs, m, sorted)
  {
    var n := GetItem(cs, others, m.key).value;
    assert n in sorted && SameName(cs, m, n);
  }

  lemma FoundAt(ints: bool, cs: bool, m: Member, n: Member, members: seq<Member>, others: seq<Member>)
    requires m in members && n in others && DistinctNames(cs, others) && SameName(cs, m, n)
    ensures Found(ints, cs, m, members, others) <==> Same(ints, cs, m.value, n.value)
  {
    GetItemIs(cs, others, m.key, n);
  }

  /** Walking the sorted members in step answers what looking each name up both ways answers. */
  lemma ObjectsAgree(ints: bool, cs: bool, members: seq<Member>, others: seq<Member>)
    requires DistinctNames(cs, members) && DistinctNames(cs, others)
    ensures Same(ints, cs, Object(members), Object(others)) <==>
            Agree(ints, cs, Sort(Key, cs, members), Sort(Key, cs, others))
  {
    hide Ordered, Sort, DistinctNames, Has, Found;
    var p, q := Sort(Key, cs, members), Sort(Key, cs, others);
    Sorted(cs, members);
    Sorted(cs, others);
    if Same(ints, cs, Object(members), Object(others)) {
      forall m | m in p ensures Has(cs, m, q) { FoundHas(ints, cs, m, members, others, q); }
      forall m | m in q ensures Has(cs, m, p) { FoundHas(ints, cs, m, others, members, p); }
      SortedInStep(cs, p, q);
      forall i | 0 <= i < |p| ensures Same(ints, cs, p[i].value, q[i].value) {
        assert p[i] in p && q[i] in q;
        FoundAt(ints, cs, p[i], q[i], members, others);
      }
    }
    if Agree(ints, cs, p, q) {
      forall m | m in members ensures Found(ints, cs, m, members, others) {
        AgreeFound(ints, cs, p, q, m, members, others);
      }
      AgreeSwaps(ints, cs, p, q);
      forall m | m in others ensures Found(ints, cs, m, others, members) {
        AgreeFound(ints, cs, q, p, m, others, members);
      }
    }
  }

  lemma AgreeFound(ints: bool, cs: bool, p: seq<Member>, q: seq<Member>, m: Member, members: seq<Member>, others: seq<Member>)
    requires Agree(ints, cs, p, q) && DistinctNames(cs, others) && m in members && m in p
    requires forall n :: n in q <==> n in others
    ensures Found(ints, cs, m, members, others)
  {
    var i :| 0 <= i < |p| && p[i] == m;
    assert q[i] in q;
    FoundAt(ints, cs, m, q[i], members, others);
  }

  lemma AgreeSwaps(ints: bool, cs: bool, p: seq<Member>, q: seq<Member>)
    requires Agree(ints, cs, p, q)
    ensures Agree(ints, cs, q, p)
  {
    forall i | 0 <= i < |p| ensures SameName(cs, q[i], p[i]) && Same(ints, cs, q[i].value, p[i].value) {
      CompareSwaps(cs, p[i].key, q[i].key);
      SameSwaps(ints, cs, p[i].value, q[i].value);
    }
  }

  // ----- sorting keeps the meaning

  lemma {:induction false} MeaningAt(cs: bool, p: seq<Member>, m: Member)
    requires DistinctNames(cs, p) && m in p
    ensures m.key in MemberMeanings(p) && MemberMeanings(p)[m.key] == MeaningOf(m.value)
  {
    if m != p[0] {
      var i :| 0 < i < |p| && p[i] == m;
      assert !SameName(cs, p[0], p[i]) && p[1..][i - 1] == m;
      CompareSelf(cs, m.key);
      MeaningAt(cs, p[1..], m);
    }
  }

  lemma {:induction false} MeaningFrom(p: seq<Member>, k: string) returns (m: Member)
    requires k in MemberMeanings(p)
    ensures m in p && m.key == k
  {
    if k == p[0].key {
      m := p[0];
    } else {
      m := MeaningFrom(p[1..], k);
    }
  }

  lemma SameMeanings(cs: bool, p: seq<Member>, q: seq<Member>)
    requires DistinctNames(cs, p) && DistinctNames(cs, q) && forall m :: m in p <==> m in q
    ensures MemberMeanings(p) == MemberMeanings(q)
  {
    hide MemberMeanings, DistinctNames;
    forall k | k in MemberMeanings(p) ensures k in MemberMeanings(q) && MemberMeanings(q)[k] == MemberMeanings(p)[k] {
      var m := MeaningFrom(p, k);
      MeaningAt(cs, p, m);
      MeaningAt(cs, q, m);
    }
    forall k | k in MemberMeanings(q) ensures k in MemberMeanings(p) {
      var m := MeaningFrom(q, k);
      MeaningAt(cs, p, m);
    }
  }

  lemma {:induction false} MeaningsUpdated(p: seq<Member>, q: seq<Member>)
    requires |p| == |q|
    requires forall i :: 0 <= i < |p| ==> p[i].key == q[i].key && MeaningOf(p[i].value) == MeaningOf(q[i].value)
    ensures MemberMeanings(p) == MemberMeanings(q)
  {
    if p != [] { MeaningsUpdated(p[1..], q[1..]); }
  }

  // ----- the code

  /** `compare_json`: sorts objects as it goes, so it also returns what it leaves behind. */
  method CompareAndSort(cs: bool, a: Json, b: Json) returns (same: bool, a': Json, b': Json)
    requires Proper(cs, a) && Proper(cs, b)
    ensures same <==> Same(true, cs, a, b)
    ensures MeaningOf(a') == MeaningOf(a) && MeaningOf(b') == MeaningOf(b)
    decreases Size(a), 2
  {
    hide Proper, Same, Close, MeaningOf, ItemMeanings, MemberMeanings;
    match (a, b)
    case (Number(d), Number(e)) =>
      LeafSame(cs, a, b);
      same, a', b' := ValueInt(d) == ValueInt(e) && Close(d, e), a, b;
    case (Text(s), Text(t)) =>
      LeafSame(cs, a, b);
      same, a', b' := s == t, a, b;
    case (Array(items), Array(others)) =>
      var p, q;
      same, p, q := CompareItems(cs, items, others);
      a', b' := Array(p), Array(q);
      ArrayMeans(p, items);
      ArrayMeans(q, others);
    case (Object(members), Object(others)) =>
      var p, q;
      same, p, q := CompareMembers(cs, members, others);
      a', b' := Object(p), Object(q);
      ObjectMeans(p, members);
      ObjectMeans(q, others);
    case _ =>
      LeafSame(cs, a, b);
      same, a', b' := a == b, a, b;
  }

  lemma LeafSame(cs: bool, a: Json, b: Json)
    requires !(a.Array? && b.Array?) && !(a.Object? && b.Object?)
    ensures Same(true, cs, a, b) <==>
            if a.Number? && b.Number? then ValueInt(a.d) == ValueInt(b.d) && Close(a.d, b.d) else a == b
  {
    hide Close, Found;
  }

  lemma ArrayMeans(p: seq<Json>, items: seq<Json>)
    requires |p| == |items| && forall i :: 0 <= i < |items| ==> MeaningOf(p[i]) == MeaningOf(items[i])
    ensures MeaningOf(Array(p)) == MeaningOf(Array(items))
  {
    assert ItemMeanings(p) == ItemMeanings(items);
  }

  lemma ObjectMeans(p: seq<Member>, members: seq<Member>)
    requires MemberMeanings(p) == MemberMeanings(members)
    ensures MeaningOf(Object(p)) == MeaningOf(Object(members))
  {
    hide MemberMeanings;
  }

  method CompareItems(cs: bool, items: seq<Json>, others: seq<Json>) returns (same: bool, p: seq<Json>, q: seq<Json>)
    requires Proper(cs, Array(items)) && Proper(cs, Array(others))
    ensures same <==> Same(true, cs, Array(items), Array(others))
    ensures |p| == |items| && |q| == |others|
    ensures forall i :: 0 <= i < |items| ==> MeaningOf(p[i]) == MeaningOf(items[i])
    ensures forall i :: 0 <= i < |others| ==> MeaningOf(q[i]) == MeaningOf(others[i])
    decreases SizeItems(items), 1
  {
    hide Same, MeaningOf;
    p, q := items, others;
    var i := 0;
    while i < |items| && i < |others|
      invariant 0 <= i <= |items| && i <= |others| && |p| == |items| && |q| == |others|
      invariant forall k :: 0 <= k < i ==> Same(true, cs, items[k], others[k])
      invariant forall k :: 0 <= k < |items| ==> MeaningOf(p[k]) == MeaningOf(items[k])
      invariant forall k :: 0 <= k < |others| ==> MeaningOf(q[k]) == MeaningOf(others[k])
    {
      ItemSmaller(items, i);
      var identical, x, y := CompareAndSort(cs, items[i], others[i]);
      p, q := p[i := x], q[i := y];
      if !identical {
        ItemsSame(cs, items, others);
        return false, p, q;
      }
      i := i + 1;
    }
    ItemsSame(cs, items, others);
    same := |items| == |others|;
  }

  lemma ItemsSame(cs: bool, items: seq<Json>, others: seq<Json>)
    ensures Same(true, cs, Array(items), Array(others)) <==>
            |items| == |others| && forall i :: 0 <= i < |items| ==> Same(true, cs, items[i], others[i])
  {
    if |items| == |others| {
      assert forall i :: 0 <= i < |items| ==> SameAt(true, cs, items, others, i) == Same(true, cs, items[i], others[i]);
    }
  }

  method CompareMembers(cs: bool, members: seq<Member>, others: seq<Member>)
    returns (same: bool, p: seq<Member>, q: seq<Member>)
    requires Proper(cs, Object(members)) && Proper(cs, Object(others))
    ensures same <==> Same(true, cs, Object(members), Object(others))
    ensures MemberMeanings(p) == MemberMeanings(members) && MemberMeanings(q) == MemberMeanings(others)
    decreases SizeMembers(members), 1
  {
    hide Same, MeaningOf, MemberMeanings, DistinctNames, Sort, Ordered, Agree;
    ObjectsAgree(true, cs, members, others);
    var p0, q0 := Sort(Key, cs, members), Sort(Key, cs, others);
    SortedProper(cs, members);
    SortedProper(cs, others);
    same, p, q := Walk(cs, p0, q0, SizeMembers(members));
    MeaningsUpdated(p, p0);
    MeaningsUpdated(q, q0);
  }

  lemma SortedProper(cs: bool, members: seq<Member>)
    requires Proper(cs, Object(members))
    ensures var p := Sort(Key, cs, members);
            && MemberMeanings(p) == MemberMeanings(members)
            && forall i :: 0 <= i < |p| ==> Proper(cs, p[i].value) && Size(p[i].value) < SizeMembers(members)
  {
    hide MemberMeanings, DistinctNames, Sort, Ordered;
    var p := Sort(Key, cs, members);
    Sorted(cs, members);
    SameMeanings(cs, p, members);
    forall i | 0 <= i < |p| ensures Proper(cs, p[i].value) && Size(p[i].value) < SizeMembers(members) {
      assert p[i] in p;
      MemberSmaller(members, p[i]);
    }
  }

  /** The loop over two sorted objects. */
  method Walk(cs: bool, p0: seq<Member>, q0: seq<Member>, ghost bound: nat)
    returns (same: bool, p: seq<Member>, q: seq<Member>)
    requires forall i :: 0 <= i < |p0| ==> Proper(cs, p0[i].value) && Size(p0[i].value) < bound
    requires forall i :: 0 <= i < |q0| ==> Proper(cs, q0[i].value)
    ensures same <==> Agree(true, cs, p0, q0)
    ensures |p| == |p0| && forall i :: 0 <= i < |p0| ==> Updated(p[i], p0[i])
    ensures |q| == |q0| && forall i :: 0 <= i < |q0| ==> Updated(q[i], q0[i])
    decreases bound, 0
  {
    hide Same, MeaningOf, Compare, Proper;
    p, q := p0, q0;
    var i := 0;
    while i < |p0| && i < |q0|
      invariant 0 <= i <= |p0| && i <= |q0|
      invariant forall k :: 0 <= k < i ==> SameName(cs, p0[k], q0[k]) && Same(true, cs, p0[k].value, q0[k].value)
      invariant |p| == |p0| && forall k :: 0 <= k < |p0| ==> Updated(p[k], p0[k])
      invariant |q| == |q0| && forall k :: 0 <= k < |q0| ==> Updated(q[k], q0[k])
    {
      if Compare(cs, p0[i].key, q0[i].key) != 0 {
        assert !SameName(cs, p0[i], q0[i]);
        return false, p, q;
      }
      var identical, x, y := CompareAndSort(cs, p0[i].value, q0[i].value);
      p, q := p[i := Member(p0[i].key, x)], q[i := Member(q0[i].key, y)];
      if !identical { return false, p, q; }
      i := i + 1;
    }
    same := |p0| == |q0|;
  }

  predicate Updated(m: Member, n: Member) { m.key == n.key && MeaningOf(m.value) == MeaningOf(n.value) }

  /** `cJSON_Compare`, member by member with a lookup each, both ways. */
  method CompareByLookup(cs: bool, a: Json, b: Json) returns (same: bool)
    ensures same <==> Same(false, cs, a, b)
    decreases Size(a) + Size(b), 2
  {
    hide Close, Found, SameAt;
    match (a, b)
    case (Number(d), Number(e)) => same := Close(d, e);
    case (Text(s), Text(t)) => same := s == t;
    case (Array(items), Array(others)) =>
      var i := 0;
      while i < |items| && i < |others|
        invariant 0 <= i <= |items| && i <= |others|
        invariant |items| == |others| ==> forall k :: 0 <= k < i ==> SameAt(false, cs, items, others, k)
      {
        ItemSmaller(items, i);
        ItemSmaller(others, i);
        var identical := CompareByLookup(cs, items[i], others[i]);
        if |items| == |others| { SameAtMeans(false, cs, items, others, i); }
        if !identical { return false; }
        i := i + 1;
      }
      same := |items| == |others|;
    case (Object(members), Object(others)) =>
      same := FoundAll(cs, members, others);
      if same { same := FoundAll(cs, others, members); }
    case _ => same := a == b;
  }

  lemma SameAtMeans(ints: bool, cs: bool, items: seq<Json>, others: seq<Json>, i: nat)
    requires i < |items| && |items| == |others|
    ensures SameAt(ints, cs, items, others, i) <==> Same(ints, cs, items[i], others[i])
  {
  }

  lemma FoundMeans(cs: bool, m: Member, members: seq<Member>, others: seq<Member>)
    requires m in members
    ensures Found(false, cs, m, members, others) <==>
            GetItem(cs, others, m.key).Some? && Same(false, cs, m.value, GetItem(cs, others, m.key).value.value)
  {
  }

  method FoundAll(cs: bool, members: seq<Member>, others: seq<Member>) returns (all: bool)
    ensures all <==> forall m :: m in members ==> Found(false, cs, m, members, others)
    decreases SizeMembers(members) + SizeMembers(others), 3
  {
    hide Same, Found, GetItem;
    var i := 0;
    while i < |members|
      invariant 0 <= i <= |members|
      invariant forall k :: 0 <= k < i ==> Found(false, cs, members[k], members, others)
    {
      var m := members[i];
      var n := GetItem(cs, others, m.key);
      assert m in members;
      FoundMeans(cs, m, members, others);
      if n == None { return false; }
      MemberSmaller(members, m);
      MemberSmaller(others, n.value);
      var identical := CompareByLookup(cs, m.value, n.value.value);
      if !identical { return false; }
      i := i + 1;
    }
    all := true;
  }

  /** Comparing a value with itself, which the code skips for one and the same item, finds it the same. */
  lemma {:induction false} SameItself(ints: bool, cs: bool, v: Json)
    requires Proper(cs, v)
    ensures Same(ints, cs, v, v)
    decreases v
  {
    match v
    case Array(items) =>
      forall i | 0 <= i < |items| ensures SameAt(ints, cs, items, items, i) { SameItself(ints, cs, items[i]); }
    case Object(members) =>
      forall m | m in members ensures Found(ints, cs, m, members, members) {
        var i :| 0 <= i < |members| && members[i] == m;
        GetItself(cs, members, i);
        SameItself(ints, cs, m.value);
      }
    case _ =>
  }

  lemma {:induction false} GetItself(cs: bool, members: seq<Member>, i: nat)
    requires DistinctNames(cs, members) && i < |members|
    ensures GetItem(cs, members, members[i].key) == Some(members[i])
  {
    if i == 0 {
      CompareSelf(cs, members[0].key);
    } else {
      assert SameName(cs, members[0], members[i]) == (Compare(cs, members[0].key, members[i].key) == 0);
      CompareSwaps(cs, members[0].key, members[i].key);
      GetItself(cs, members[1..], i - 1);
    }
  }

  // ----- where the two differ

  /** All numbers of a value. */
  function Numbers(v: Json): set<real>
    decreases v
  {
    match v
    case Number(d) => {d}
    case Array(items) => set i, d | 0 <= i < |items| && d in Numbers(items[i]) :: d
    case Object(members) => set i, d | 0 <= i < |members| && d in Numbers(members[i].value) :: d
    case _ => {}
  }

  /** Numbers that are close have the same integer value. */
  predicate IntsFollow(a: Json, b: Json) {
    forall d, e :: d in Numbers(a) && e in Numbers(b) && Close(d, e) ==> ValueInt(d) == ValueInt(e)
  }

  /** The two functions answer alike wherever close numbers have the same integer value. */
  lemma {:induction false} AnswersAgree(cs: bool, a: Json, b: Json)
    requires IntsFollow(a, b)
    ensures Same(true, cs, a, b) <==> Same(false, cs, a, b)
    decreases Size(a) + Size(b), 2
  {
    hide Close, ValueInt, GetItem;
    match (a, b)
    case (Number(d), Number(e)) => assert d in Numbers(a) && e in Numbers(b);
    case (Array(items), Array(others)) =>
      if |items| == |others| {
        forall i | 0 <= i < |items| ensures SameAt(true, cs, items, others, i) <==> SameAt(false, cs, items, others, i) {
          ItemSmaller(items, i);
          ItemSmaller(others, i);
          AnswersAgree(cs, items[i], others[i]);
        }
      }
    case (Object(members), Object(others)) =>
      forall m | m in members ensures Found(true, cs, m, members, others) <==> Found(false, cs, m, members, others) {
        FoundInts(cs, m, members, others);
      }
      forall m | m in others ensures Found(true, cs, m, others, members) <==> Found(false, cs, m, others, members) {
        IntsSwap(Object(members), Object(others));
        FoundInts(cs, m, others, members);
      }
    case _ =>
  }

  lemma IntsSwap(a: Json, b: Json)
    requires IntsFollow(a, b)
    ensures IntsFollow(b, a)
  {
    forall d, e | d in Numbers(b) && e in Numbers(a) && Close(d, e) ensures ValueInt(d) == ValueInt(e) {
      assert Close(e, d);
    }
  }

  lemma {:induction false} FoundInts(cs: bool, m: Member, members: seq<Member>, others: seq<Member>)
    requires m in members && IntsFollow(Object(members), Object(others))
    ensures Found(true, cs, m, members, others) <==> Found(false, cs, m, members, others)
    decreases SizeMembers(members) + SizeMembers(others), 1
  {
    hide Close, ValueInt;
    match GetItem(cs, others, m.key)
    case None =>
    case Some(n) =>
      MemberSmaller(members, m);
      MemberSmaller(others, n);
      var i :| 0 <= i < |members| && members[i] == m;
      var j :| 0 <= j < |others| && others[j] == n;
      AnswersAgree(cs, m.value, n.value);
  }

  /** On two numbers they differ exactly when the numbers are close and their integer values are not equal. */
  lemma NumbersDiffer(cs: bool, d: real, e: real)
    ensures Same(true, cs, Number(d), Number(e)) != Same(false, cs, Number(d), Number(e)) <==>
            Close(d, e) && ValueInt(d) != ValueInt(e)
  {
  }

  /** The answers on all values over some numbers. */
  ghost predicate AgreeOver(cs: bool, numbers: iset<real>) {
    forall a: Json, b: Json | Over(a, numbers) && Over(b, numbers) :: Same(true, cs, a, b) <==> Same(false, cs, a, b)
  }

  ghost predicate Over(v: Json, numbers: iset<real>) { forall d :: d in Numbers(v) ==> d in numbers }

  /** The two functions answer alike on all values over some numbers if and only if close numbers among these
      have the same integer value. */
  lemma AgreeExactly(cs: bool, numbers: iset<real>)
    ensures AgreeOver(cs, numbers) <==>
            forall d, e :: d in numbers && e in numbers && Close(d, e) ==> ValueInt(d) == ValueInt(e)
  {
    if AgreeOver(cs, numbers) {
      forall d, e | d in numbers && e in numbers && Close(d, e) ensures ValueInt(d) == ValueInt(e) {
        assert Over(Number(d), numbers) && Over(Number(e), numbers);
        NumbersDiffer(cs, d, e);
      }
    } else {
      var a, b :| Over(a, numbers) && Over(b, numbers) && Same(true, cs, a, b) != Same(false, cs, a, b);
      if IntsFollow(a, b) { AnswersAgree(cs, a, b); }
    }
  }

  /** 3 and the double just below it. */
  lemma ThreeDiffers(cs: bool)
    ensures var below := 3.0 - 1.0 / 2251799813685248.0;
            Same(false, cs, Number(3.0), Number(below)) && !Same(true, cs, Number(3.0), Number(below))
  {
    var below := 3.0 - 1.0 / 2251799813685248.0;
    assert Close(3.0, below);
    assert ValueInt(3.0) == 3 && ValueInt(below) == 2;
  }
}
