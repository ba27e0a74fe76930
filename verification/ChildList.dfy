/** The doubly linked lists of cJSON's children: only `next` ends in null, and the first item's `prev` is the
    last item, or null in lists built without it. */
module ChildList {

  class Item {
    var next: Item?
    var prev: Item?

    constructor ()
      ensures next == null && prev == null
    {
      next, prev := null, null;
    }
  }

  predicate Distinct(s: seq<Item>) { forall i, j :: 0 <= i < j < |s| ==> s[i] != s[j] }

  function After(s: seq<Item>, i: nat): Item?
    requires i < |s|
  {
    if i + 1 < |s| then s[i + 1] else null
  }

  /** The links of item number i. */
  ghost predicate LinkOk(s: seq<Item>, i: nat)
    requires i < |s|
    reads s
  {
    s[i].next == After(s, i) && if i > 0 then s[i].prev == s[i - 1] else s[0].prev == null || s[0].prev == s[|s| - 1]
  }

  ghost predicate ListOk(child: Item?, s: seq<Item>)
    reads s
  {
    && Distinct(s) && child == (if s == [] then null else s[0])
    && forall i :: 0 <= i < |s| ==> LinkOk(s, i)
  }

  lemma DistinctInserted(s: seq<Item>, k: nat, item: Item)
    requires Distinct(s) && item !in s && k <= |s|
    ensures Distinct(s[..k] + [item] + s[k..])
  {
    var t := s[..k] + [item] + s[k..];
    forall i, j | 0 <= i < j < |t| ensures t[i] != t[j] {
      assert i < k ==> t[i] == s[i];
      assert i > k ==> t[i] == s[i - 1];
      assert j < k ==> t[j] == s[j];
      assert j > k ==> t[j] == s[j - 1];
    }
  }

  class Parent {
    var child: Item?
    ghost var items: seq<Item>

    ghost predicate Valid()
      reads this, items
    {
      ListOk(child, items)
    }

    constructor ()
      ensures Valid() && items == []
    {
      child, items := null, [];
    }

    /** `get_array_item`. */
    method GetArrayItem(index: nat) returns (item: Item?)
      requires Valid()
      ensures item == if index < |items| then items[index] else null
    {
      item := child;
      var left: nat := index;
      ghost var i := 0;
      while item != null && left > 0
        invariant 0 <= i <= |items| && item == (if i < |items| then items[i] else null)
        invariant left + i == index
        decreases left
      {
        assert LinkOk(items, i);
        left := left - 1;
        item := item.next;
        i := i + 1;
      }
    }

    /** `add_item_to_array`: the item goes last. Behind other items it keeps its `next`, so that the list ends
        with it exactly if it pointed nowhere. */
    method Add(item: Item)
      requires Valid() && item !in items
      modifies this, items, item
      ensures items == old(items) + [item] && item.next == if old(items) == [] then null else old(item.next)
      ensures Valid() <==> old(items) == [] || old(item.next) == null
    {
      ghost var s := items;
      if child == null {
        child := item;
        item.prev := item;
        item.next := null;
      } else {
        assert LinkOk(s, 0);
        var last: Item;
        if child.prev != null {
          last := child.prev;
        } else {
          last := Last();
        }
        assert LinkOk(s, |s| - 1);
        last.next := item;
        item.prev := last;
        child.prev := item;
      }
      items := s + [item];
      forall i | 0 <= i < |s| ensures LinkOk(items, i) { assert old(LinkOk(s, i)); }
      assert LinkOk(items, |s|) <==> item.next == null;
    }

    method Last() returns (last: Item)
      requires Valid() && items != []
      ensures last == items[|items| - 1]
    {
      last := child;
      ghost var i := 0;
      assert LinkOk(items, 0);
      while last.next != null
        invariant 0 <= i < |items| && last == items[i]
        decreases |items| - i
      {
        assert LinkOk(items, i);
        last := last.next;
        i := i + 1;
      }
      assert LinkOk(items, i);
    }

    /** `cJSON_DetachItemViaPointer`. */
    method Detach(item: Item, ghost k: nat)
      requires Valid() && k < |items| && item == items[k]
      modifies this, items
      ensures Valid() && items == old(items[..k] + items[k + 1..])
      ensures item.next == null && item.prev == null
    {
      ghost var s := items;
      assert LinkOk(s, k) && LinkOk(s, 0);
      if item != child { item.prev.next := item.next; }
      if item.next != null { item.next.prev := item.prev; }
      if item == child {
        child := item.next;
      } else if item.next == null {
        child.prev := item.prev;
      }
      item.prev := null;
      item.next := null;
      items := s[..k] + s[k + 1..];
      forall i | 0 <= i < |items| ensures LinkOk(items, i) {
        assert old(LinkOk(s, if i < k then i else i + 1));
        if i == k && k > 0 { assert old(LinkOk(s, k)); }
      }
    }

    /** `cJSON_InsertItemInArray`: before item `which`, or last when there is none. */
    method Insert(which: int, newitem: Item) returns (ok: bool)
      requires Valid() && newitem !in items
      modifies this, items, newitem
      ensures ok <==> which >= 0
      ensures Valid() <==> which < |old(items)| || old(items) == [] || old(newitem.next) == null
      ensures !ok ==> items == old(items)
      ensures ok && which < |old(items)| ==> items == old(items[..which] + [newitem] + items[which..])
      ensures ok && which >= |old(items)| ==> items == old(items) + [newitem]
    {
      if which < 0 { return false; }
      var after := GetArrayItem(which);
      if after == null {
        Add(newitem);
        return true;
      }
      ghost var s := items;
      assert LinkOk(s, which) && LinkOk(s, 0);
      newitem.next := after;
      newitem.prev := after.prev;
      after.prev := newitem;
      if after == child {
        child := newitem;
      } else {
        newitem.prev.next := newitem;
      }
      items := s[..which] + [newitem] + s[which..];
      DistinctInserted(s, which, newitem);
      forall i | 0 <= i < |items| ensures LinkOk(items, i) {
        if i < which {
          assert old(LinkOk(s, i)) && items[i] == s[i];
        } else if i > which {
          assert old(LinkOk(s, i - 1)) && items[i] == s[i - 1];
        }
      }
      hide Distinct, LinkOk;
      return true;
    }

    /** `cJSON_ReplaceItemViaPointer`. */
    method Replace(item: Item, replacement: Item, ghost k: nat)
      requires Valid() && k < |items| && item == items[k] && (replacement == item || replacement !in items)
      modifies this, items, replacement
      ensures Valid() && items == old(items)[k := replacement]
    {
      if replacement == item { return; }
      ghost var s := items;
      assert LinkOk(s, k) && LinkOk(s, 0);
      replacement.next := item.next;
      replacement.prev := item.prev;
      if replacement.next != null { replacement.next.prev := replacement; }
      if child == item {
        if child.prev == child { replacement.prev := replacement; }
        child := replacement;
      } else {
        if replacement.prev != null { replacement.prev.next := replacement; }
        if replacement.next == null { child.prev := replacement; }
      }
      item.next := null;
      item.prev := null;
      items := s[k := replacement];
      forall i | 0 <= i < |items| ensures LinkOk(items, i) {
        if i != k { assert old(LinkOk(s, i)); }
      }
    }

    /** `suffix_object` behind the last item while a list is built, its first item pointing nowhere back. */
    method Suffix(p: Item?, n: Item)
      requires Valid() && n !in items && n.next == null && n.prev == null
      requires if items == [] then p == null else p == items[|items| - 1] && items[0].prev == null
      modifies this, items, n
      ensures Valid() && items == old(items) + [n] && items[0].prev == null
    {
      ghost var s := items;
      if p == null {
        child := n;
      } else {
        p.next := n;
        n.prev := p;
      }
      items := s + [n];
      forall i | 0 <= i < |items| ensures LinkOk(items, i) {
        if i < |s| { assert old(LinkOk(s, i)); }
      }
    }

    /** The parser's last step: the first item points to the last. */
    method Close(p: Item?)
      requires Valid() && p == (if items == [] then null else items[|items| - 1])
      modifies items
      ensures Valid() && (items != [] ==> items[0].prev == p)
    {
      if child != null {
        child.prev := p;
        forall i | 0 <= i < |items| ensures LinkOk(items, i) { assert old(LinkOk(items, i)); }
      }
    }
  }

  /** How lists come about: one item after the other, the first one's `prev` left null by
      `cJSON_CreateIntArray` and `cJSON_Duplicate`, set to the last item by the parser. */
  method Build(count: nat, closes: bool) returns (parent: Parent)
    ensures fresh(parent) && fresh(parent.items) && parent.Valid() && |parent.items| == count
    ensures count > 0 ==> parent.child.prev == if closes then parent.items[count - 1] else null
  {
    parent := new Parent();
    var p: Item? := null;
    var i := 0;
    while i < count
      invariant 0 <= i <= count && fresh(parent.items) && parent.Valid() && |parent.items| == i
      invariant if i == 0 then p == null else p == parent.items[i - 1] && parent.items[0].prev == null
    {
      var n := new Item();
      parent.Suffix(p, n);
      p := n;
      i := i + 1;
    }
    if closes { parent.Close(p); }
  }
}
