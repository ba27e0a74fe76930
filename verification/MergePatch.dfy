/** Merge patches (RFC 7396) with case-sensitive names, as cJSON_Utils applies them. */
module MergePatch {
  import opened Basics
  import opened Json
  import opened CompareJson
  import SortList

  // ----- the code on member lists

  /** The first member of a name, if any. */
  function Position(members: seq<Member>, name: string): (i: nat)
    ensures i <= |members| && (i < |members| ==> members[i].key == name)
    ensures forall k :: 0 <= k < i ==> members[k].key != name
  {
    if members == [] || members[0].key == name then 0 else 1 + Position(members[1..], name)
  }

  /** Detaching it: the others keep their order. */
  function Without(members: seq<Member>, name: string): seq<Member> {
    var i := Position(members, name);
    if i < |members| then members[..i] + members[i + 1..] else members
  }

  function Item(members: seq<Member>, name: string): Json {
    var i := Position(members, name);
    if i < |members| then members[i].value else Null
  }

  function Merge(target: Json, patch: Json): Json
    decreases patch, 1
  {
    if !patch.Object? then patch
    else Object(MergeMembers(if target.Object? then target.members else [], patch.members))
  }

  function MergeMembers(members: seq<Member>, patch: seq<Member>): seq<Member>
    decreases patch, 0
  {
    if patch == [] then members
    else MergeMembers(MergeOne(members, patch[0]), patch[1..])
  }

  function MergeOne(members: seq<Member>, p: Member): seq<Member>
    decreases p, 0
  {
    if p.value.Null? then Without(members, p.key)
    else Without(members, p.key) + [Member(p.key, Merge(Item(members, p.key), p.value))]
  }

  // ----- section 2 of RFC 7396, on maps

  /** An absent value. */
  const NOTHING: Meaning := Atom(Null)

  function Old(m: map<string, Meaning>, name: string): Meaning { if name in m then m[name] else NOTHING }

  function Rfc(target: Meaning, patch: Json): Meaning
    decreases patch, 1
  {
    if !patch.Object? then MeaningOf(patch)
    else Map(RfcMembers(if target.Map? then target.members else map[], patch.members))
  }

  function RfcMembers(m: map<string, Meaning>, patch: seq<Member>): map<string, Meaning>
    decreases patch, 0
  {
    if patch == [] then m else RfcMembers(RfcOne(m, patch[0]), patch[1..])
  }

  function RfcOne(m: map<string, Meaning>, p: Member): map<string, Meaning>
    decreases p, 0
  {
    if p.value.Null? then m - {p.key} else m[p.key := Rfc(Old(m, p.key), p.value)]
  }

  // ----- the code computes the standard's function

  predicate Distinct(members: seq<Member>) { forall i, j :: 0 <= i < j < |members| ==> members[i].key != members[j].key }

  lemma DistinctIs(members: seq<Member>)
    ensures DistinctNames(true, members) <==> Distinct(members)
  {
    forall i, j | 0 <= i < j < |members| ensures SameName(true, members[i], members[j]) <==> members[i].key == members[j].key {
      SortList.CompareEqual(members[i].key, members[j].key);
    }
  }

  lemma WithoutDistinct(members: seq<Member>, name: string)
    requires Distinct(members)
    ensures var w := Without(members, name);
            Distinct(w) && forall k :: 0 <= k < |w| ==> w[k].key != name && w[k] in members
  {
    var i := Position(members, name);
    var w := Without(members, name);
    if i < |members| {
      assert forall k :: 0 <= k < |w| ==> w[k] == members[if k < i then k else k + 1];
    }
  }

  lemma WithoutTail(members: seq<Member>, name: string)
    requires members != [] && members[0].key != name
    ensures Without(members, name) != [] && Without(members, name)[0] == members[0]
    ensures Without(members, name)[1..] == Without(members[1..], name)
    ensures Item(members, name) == Item(members[1..], name)
  {
    var i := Position(members, name);
    if i < |members| {
      var w := members[..i] + members[i + 1..];
      assert members[1..][..i - 1] == members[..i][1..] && members[1..][i..] == members[i + 1..];
      assert w[1..] == members[..i][1..] + members[i + 1..];
    }
  }

  lemma {:induction false} WithoutMeans(members: seq<Member>, name: string)
    requires Distinct(members)
    ensures MemberMeanings(Without(members, name)) == MemberMeanings(members) - {name}
    ensures Old(MemberMeanings(members), name) == MeaningOf(Item(members, name))
  {
    hide Distinct, MeaningOf, Without, Item;
    if members == [] {
      WithoutNothing(name);
    } else {
      Tail(members);
      var rest, v := members[1..], MeaningOf(members[0].value);
      if members[0].key == name {
        WithoutFirst(members);
        NotMapped(rest, name);
        assert MemberMeanings(rest)[name := v] - {name} == MemberMeanings(rest);
      } else {
        WithoutMeans(rest, name);
        WithoutTail(members, name);
        assert MemberMeanings(rest)[members[0].key := v] - {name} == (MemberMeanings(rest) - {name})[members[0].key := v];
      }
    }
  }

  lemma WithoutNothing(name: string)
    ensures Without([], name) == [] && MeaningOf(Item([], name)) == NOTHING
  {
  }

  lemma WithoutFirst(members: seq<Member>)
    requires members != []
    ensures Without(members, members[0].key) == members[1..] && Item(members, members[0].key) == members[0].value
  {
  }

  lemma Tail(members: seq<Member>)
    requires Distinct(members) && members != []
    ensures Distinct(members[1..]) && forall k :: 0 <= k < |members[1..]| ==> members[1..][k].key != members[0].key
  {
  }

  lemma {:induction false} NotMapped(members: seq<Member>, name: string)
    requires forall k :: 0 <= k < |members| ==> members[k].key != name
    ensures name !in MemberMeanings(members)
  {
    if members != [] { NotMapped(members[1..], name); }
  }

  lemma {:induction false} AppendMeans(members: seq<Member>, m: Member)
    requires forall k :: 0 <= k < |members| ==> members[k].key != m.key
    ensures MemberMeanings(members + [m]) == MemberMeanings(members)[m.key := MeaningOf(m.value)]
  {
    if members == [] {
      assert [m][1..] == [];
    } else {
      AppendMeans(members[1..], m);
      assert (members + [m])[1..] == members[1..] + [m];
    }
  }

  /** Merging, as the list operations do it, is the standard's merge of the maps; names stay distinct. */
  lemma {:induction false} MergeIsRfc(target: Json, patch: Json)
    requires Proper(true, target) && Proper(true, patch)
    ensures MeaningOf(Merge(target, patch)) == Rfc(MeaningOf(target), patch) && Proper(true, Merge(target, patch))
    decreases patch, 1
  {
    if patch.Object? {
      var members := if target.Object? then target.members else [];
      DistinctIs(members);
      MembersAreRfc(members, patch.members);
      DistinctIs(MergeMembers(members, patch.members));
    }
  }

  predicate ProperMembers(members: seq<Member>) {
    Distinct(members) && forall i :: 0 <= i < |members| ==> Proper(true, members[i].value)
  }

  lemma {:induction false} MembersAreRfc(members: seq<Member>, patch: seq<Member>)
    requires ProperMembers(members) && forall i :: 0 <= i < |patch| ==> Proper(true, patch[i].value)
    ensures MemberMeanings(MergeMembers(members, patch)) == RfcMembers(MemberMeanings(members), patch)
    ensures ProperMembers(MergeMembers(members, patch))
    decreases patch, 0
  {
    if patch != [] {
      OneIsRfc(members, patch[0]);
      MembersAreRfc(MergeOne(members, patch[0]), patch[1..]);
    }
  }

  lemma ItemProper(members: seq<Member>, name: string)
    requires ProperMembers(members)
    ensures Proper(true, Item(members, name))
  {
  }

  lemma {:induction false} OneIsRfc(members: seq<Member>, p: Member)
    requires ProperMembers(members) && Proper(true, p.value)
    ensures MemberMeanings(MergeOne(members, p)) == RfcOne(MemberMeanings(members), p)
    ensures ProperMembers(MergeOne(members, p))
    decreases p, 0
  {
    hide Without, Proper, MemberMeanings;
    WithoutMeans(members, p.key);
    WithoutDistinct(members, p.key);
    var w := Without(members, p.key);
    ItemProper(members, p.key);
    if !p.value.Null? {
      var m := Member(p.key, Merge(Item(members, p.key), p.value));
      MergeIsRfc(Item(members, p.key), p.value);
      AppendMeans(w, m);
      assert MemberMeanings(w)[m.key := MeaningOf(m.value)] == MemberMeanings(members)[m.key := MeaningOf(m.value)];
    }
  }

  // ----- applying a patch twice

  predicate Names(patch: seq<Member>, name: string) { exists i :: 0 <= i < |patch| && patch[i].key == name }

  /** The members a patch does not name. */
  function Kept(members: seq<Member>, patch: seq<Member>): seq<Member> {
    if members == [] then []
    else (if Names(patch, members[0].key) then [] else [members[0]]) + Kept(members[1..], patch)
  }

  /** The members a patch puts in. */
  function Added(members: seq<Member>, patch: seq<Member>): seq<Member> {
    if patch == [] then []
    else (if patch[0].value.Null? then [] else [Member(patch[0].key, Merge(Item(members, patch[0].key), patch[0].value))])
         + Added(members, patch[1..])
  }

  lemma {:induction false} KeptJoin(a: seq<Member>, b: seq<Member>, patch: seq<Member>)
    ensures Kept(a + b, patch) == Kept(a, patch) + Kept(b, patch)
  {
    hide Names;
    if a == [] {
      assert a + b == b;
    } else {
      KeptJoin(a[1..], b, patch);
      assert (a + b)[0] == a[0] && (a + b)[1..] == a[1..] + b;
      Assoc(if Names(patch, a[0].key) then [] else [a[0]], Kept(a[1..], patch), Kept(b, patch));
    }
  }

  lemma {:induction false} KeptNone(members: seq<Member>, patch: seq<Member>)
    requires forall k :: 0 <= k < |members| ==> Names(patch, members[k].key)
    ensures Kept(members, patch) == []
  {
    if members != [] {
      assert forall k :: 0 <= k < |members[1..]| ==> members[1..][k] == members[k + 1];
      KeptNone(members[1..], patch);
    }
  }

  lemma {:induction false} KeptTwice(members: seq<Member>, patch: seq<Member>)
    ensures Kept(Kept(members, patch), patch) == Kept(members, patch)
  {
    hide Names;
    if members != [] {
      var one := if Names(patch, members[0].key) then [] else [members[0]];
      KeptTwice(members[1..], patch);
      KeptJoin(one, Kept(members[1..], patch), patch);
      assert one != [] ==> one[1..] == [];
    }
  }

  lemma {:induction false} KeptAll(members: seq<Member>)
    ensures Kept(members, []) == members
  {
    if members != [] { KeptAll(members[1..]); }
  }

  /** The members kept are those kept by the rest of the patch of what is left without its first name. */
  lemma {:induction false} KeptWithout(members: seq<Member>, patch: seq<Member>)
    requires Distinct(members) && patch != []
    ensures Kept(Without(members, patch[0].key), patch[1..]) == Kept(members, patch)
  {
    hide Without;
    if members == [] {
      WithoutNothing(patch[0].key);
    } else {
      NamesMore(patch, members[0].key);
      Tail(members);
      if members[0].key == patch[0].key {
        WithoutFirst(members);
        KeptElsewhere(members[1..], patch);
      } else {
        WithoutTail(members, patch[0].key);
        KeptWithout(members[1..], patch);
      }
    }
  }

  lemma NamesMore(patch: seq<Member>, name: string)
    requires patch != []
    ensures Names(patch, name) <==> patch[0].key == name || Names(patch[1..], name)
  {
    if Names(patch, name) {
      var i :| 0 <= i < |patch| && patch[i].key == name;
      assert i > 0 ==> patch[1..][i - 1] == patch[i];
    }
  }

  lemma {:induction false} KeptElsewhere(members: seq<Member>, patch: seq<Member>)
    requires patch != [] && forall k :: 0 <= k < |members| ==> members[k].key != patch[0].key
    ensures Kept(members, patch[1..]) == Kept(members, patch)
  {
    if members != [] {
      NamesMore(patch, members[0].key);
      KeptElsewhere(members[1..], patch);
    }
  }

  /** In a list with distinct names a name finds its member. */
  lemma ItemOf(members: seq<Member>, m: Member)
    requires Distinct(members) && m in members
    ensures Item(members, m.key) == m.value
  {
    var i :| 0 <= i < |members| && members[i] == m;
    assert Position(members, m.key) == i;
  }

  lemma {:induction false} ItemAbsent(members: seq<Member>, name: string)
    requires forall k :: 0 <= k < |members| ==> members[k].key != name
    ensures Item(members, name) == Null
  {
  }

  /** One patch member changes no other name. */
  lemma ItemElsewhere(members: seq<Member>, p: Member, name: string)
    requires Distinct(members) && name != p.key
    ensures Item(MergeOne(members, p), name) == Item(members, name)
  {
    hide Item, Merge;
    WithoutDistinct(members, p.key);
    OneDistinct(members, p);
    var i, r := Position(members, name), MergeOne(members, p);
    if i < |members| {
      WithoutKeeps(members, p.key, members[i]);
      assert members[i] in r;
      ItemOf(members, members[i]);
      ItemOf(r, members[i]);
    } else {
      ItemAbsent(members, name);
      assert forall k :: 0 <= k < |r| ==> r[k].key != name by {
        assert forall k :: 0 <= k < |members| ==> members[k].key != name;
      }
      ItemAbsent(r, name);
    }
  }

  lemma WithoutKeeps(members: seq<Member>, name: string, m: Member)
    requires m in members && m.key != name
    ensures m in Without(members, name)
  {
    var j :| 0 <= j < |members| && members[j] == m;
    var i := Position(members, name);
    if i < |members| {
      if j < i { assert members[..i][j] == m; } else { assert members[i + 1..][j - i - 1] == m; }
    }
  }

  lemma OneDistinct(members: seq<Member>, p: Member)
    requires Distinct(members)
    ensures Distinct(MergeOne(members, p))
  {
    hide Merge, Item;
    WithoutDistinct(members, p.key);
  }

  lemma {:induction false} AddedSame(members: seq<Member>, others: seq<Member>, patch: seq<Member>)
    requires forall p :: p in patch && !p.value.Null? ==> Merge(Item(members, p.key), p.value) == Merge(Item(others, p.key), p.value)
    ensures Added(members, patch) == Added(others, patch)
  {
    hide Merge, Item;
    if patch != [] { AddedSame(members, others, patch[1..]); }
  }

  /** Merging leaves the members not named as they are and appends the others in the order of the patch. */
  lemma {:induction false} MergeShape(members: seq<Member>, patch: seq<Member>)
    requires Distinct(members) && Distinct(patch)
    ensures MergeMembers(members, patch) == Kept(members, patch) + Added(members, patch)
    decreases patch
  {
    hide Merge, Item, Without, Names, Distinct, Kept;
    if patch == [] {
      KeptAll(members);
    } else {
      var p, w := patch[0], Without(members, patch[0].key);
      var one := if p.value.Null? then [] else [Member(p.key, Merge(Item(members, p.key), p.value))];
      var r := MergeOne(members, p);
      assert r == w + one;
      Tail(patch);
      OneDistinct(members, p);
      MergeShape(r, patch[1..]);
      KeptJoin(w, one, patch[1..]);
      KeptWithout(members, patch);
      assert Kept(one, patch[1..]) == one by { OneKept(one, patch); }
      forall q | q in patch[1..] ensures Item(r, q.key) == Item(members, q.key) {
        ItemElsewhere(members, p, q.key);
      }
      AddedSame(r, members, patch[1..]);
      assert (Kept(members, patch) + one) + Added(members, patch[1..]) == Kept(members, patch) + (one + Added(members, patch[1..]));
    }
  }

  lemma OneKept(one: seq<Member>, patch: seq<Member>)
    requires Distinct(patch) && patch != [] && |one| <= 1 && (one != [] ==> one[0].key == patch[0].key)
    ensures Kept(one, patch[1..]) == one
  {
    if one != [] {
      assert one[1..] == [];
      assert !Names(patch[1..], patch[0].key);
    }
  }

  lemma {:induction false} AddedNamed(members: seq<Member>, patch: seq<Member>)
    ensures forall k :: 0 <= k < |Added(members, patch)| ==> Names(patch, Added(members, patch)[k].key)
    ensures forall p :: p in patch && !p.value.Null? ==> Member(p.key, Merge(Item(members, p.key), p.value)) in Added(members, patch)
  {
    hide Merge, Item;
    if patch != [] {
      AddedNamed(members, patch[1..]);
      forall name ensures Names(patch, name) <==> patch[0].key == name || Names(patch[1..], name) { NamesMore(patch, name); }
    }
  }

  lemma MembersTwice(members: seq<Member>, patch: seq<Member>)
    requires Distinct(members) && Distinct(patch) && Distinct(MergeMembers(members, patch))
    requires forall p :: p in patch && !p.value.Null? ==>
               var y := Merge(Item(members, p.key), p.value); Merge(y, p.value) == y
    ensures MergeMembers(MergeMembers(members, patch), patch) == MergeMembers(members, patch)
  {
    hide Merge, MergeMembers, Item, Added, Kept, Names, Distinct;
    var r := MergeMembers(members, patch);
    MergeShape(members, patch);
    MergeShape(r, patch);
    AddedNamed(members, patch);
    forall p | p in patch && !p.value.Null? ensures Merge(Item(r, p.key), p.value) == Merge(Item(members, p.key), p.value) {
      ItemOf(r, Member(p.key, Merge(Item(members, p.key), p.value)));
    }
    AddedSame(r, members, patch);
    KeptJoin(Kept(members, patch), Added(members, patch), patch);
    KeptTwice(members, patch);
    KeptNone(Added(members, patch), patch);
  }

  /** A second application changes nothing, not even the order of the members. */
  lemma {:induction false} Idempotent(target: Json, patch: Json)
    requires Proper(true, target) && Proper(true, patch)
    ensures Merge(Merge(target, patch), patch) == Merge(target, patch)
    decreases patch
  {
    if patch.Object? {
      var members, ps := if target.Object? then target.members else [], patch.members;
      DistinctIs(members);
      DistinctIs(ps);
      hide Item, Distinct, MergeMembers;
      assert ProperMembers(members);
      MembersAreRfc(members, ps);
      forall p | p in ps && !p.value.Null?
        ensures var y := Merge(Item(members, p.key), p.value); Merge(y, p.value) == y
      {
        ItemProper(members, p.key);
        Idempotent(Item(members, p.key), p.value);
      }
      MembersTwice(members, ps);
    }
  }

  /** `merge_patch`: one patch member after the other, each detached, merged and appended. */
  method ApplyPatch(target: Json, patch: Json) returns (r: Json)
    requires Proper(true, target) && Proper(true, patch)
    ensures r == Merge(target, patch)
    ensures MeaningOf(r) == Rfc(MeaningOf(target), patch) && Proper(true, r)
    decreases patch
  {
    MergeIsRfc(target, patch);
    hide Proper, MeaningOf, Rfc, Without, Item;
    if !patch.Object? { return patch; }
    var members := if target.Object? then target.members else [];
    ghost var all := MergeMembers(members, patch.members);
    var i := 0;
    ProperParts(target, patch);
    assert patch.members[0..] == patch.members;
    while i < |patch.members|
      invariant 0 <= i <= |patch.members| && MergeMembers(members, patch.members[i..]) == all && ProperMembers(members)
    {
      var child := patch.members[i];
      assert patch.members[i..][0] == child && patch.members[i..][1..] == patch.members[i + 1..];
      OneIsRfc(members, child);
      if child.value.Null? {
        members := Without(members, child.key);
      } else {
        var replaced := Item(members, child.key);
        ItemProper(members, child.key);
        var replacement := ApplyPatch(replaced, child.value);
        members := Without(members, child.key) + [Member(child.key, replacement)];
      }
      i := i + 1;
    }
    r := Object(members);
  }

  lemma ProperParts(target: Json, patch: Json)
    requires Proper(true, target) && Proper(true, patch) && patch.Object?
    ensures ProperMembers(if target.Object? then target.members else [])
    ensures forall i :: 0 <= i < |patch.members| ==> Proper(true, patch.members[i].value)
  {
    if target.Object? { DistinctIs(target.members); }
  }
}
