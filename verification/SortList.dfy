/** The merge sort of cJSON_Utils on doubly linked member lists. */
module SortList {
  import opened Basics

  // ----- comparing names

  function Lower(c: char): char { if 'A' <= c <= 'Z' then (c as int + 32) as char else c }

  function Fold(caseSensitive: bool, c: char): char { if caseSensitive then c else Lower(c) }

  /** The sign of `compare_strings` on two names. */
  function Compare(caseSensitive: bool, a: string, b: string): (r: int)
    ensures -1 <= r <= 1
  {
    if a == "" then (if b == "" then 0 else -1)
    else if b == "" then 1
    else
      var x, y := Fold(caseSensitive, a[0]), Fold(caseSensitive, b[0]);
      if x < y then -1 else if x > y then 1 else Compare(caseSensitive, a[1..], b[1..])
  }

  lemma {:induction false} CompareSwaps(cs: bool, a: string, b: string)
    ensures Compare(cs, a, b) == -Compare(cs, b, a)
  {
    if a != "" && b != "" { CompareSwaps(cs, a[1..], b[1..]); }
  }

  lemma {:induction false} CompareTrans(cs: bool, a: string, b: string, c: string)
    requires Compare(cs, a, b) <= 0 && Compare(cs, b, c) <= 0
    ensures Compare(cs, a, c) <= 0
    ensures Compare(cs, a, c) == 0 ==> Compare(cs, a, b) == 0 && Compare(cs, b, c) == 0
  {
    if a != "" && b != "" && c != "" && Fold(cs, a[0]) == Fold(cs, b[0]) == Fold(cs, c[0]) {
      CompareTrans(cs, a[1..], b[1..], c[1..]);
    }
  }

  lemma {:induction false} CompareEqual(a: string, b: string)
    ensures Compare(true, a, b) == 0 <==> a == b
  {
    if a != "" && b != "" {
      CompareEqual(a[1..], b[1..]);
      assert a == [a[0]] + a[1..] && b == [b[0]] + b[1..];
    }
  }

  // ----- sorting as a function

  predicate Below<T>(name: T -> string, cs: bool, a: T, b: T) { Compare(cs, name(a), name(b)) <= 0 }

  predicate Ordered<T>(name: T -> string, cs: bool, s: seq<T>) {
    forall i, j :: 0 <= i < j < |s| ==> Below(name, cs, s[i], s[j])
  }

  predicate StrictlyUp<T>(name: T -> string, cs: bool, s: seq<T>) {
    forall i :: 0 <= i < |s| - 1 ==> Compare(cs, name(s[i]), name(s[i + 1])) < 0
  }

  /** On equal names the second list goes first. */
  function Merge<T>(name: T -> string, cs: bool, f: seq<T>, s: seq<T>): seq<T> {
    if f == [] then s
    else if s == [] then f
    else if Compare(cs, name(f[0]), name(s[0])) < 0 then [f[0]] + Merge(name, cs, f[1..], s)
    else [s[0]] + Merge(name, cs, f, s[1..])
  }

  function Sort<T>(name: T -> string, cs: bool, s: seq<T>): seq<T>
    decreases |s|
  {
    if |s| <= 1 || StrictlyUp(name, cs, s) then s
    else
      var half := (|s| + 1) / 2;
      Merge(name, cs, Sort(name, cs, s[..half]), Sort(name, cs, s[half..]))
  }

  lemma MergeUnfold<T>(name: T -> string, cs: bool, f: seq<T>, s: seq<T>)
    requires f != [] && s != []
    ensures Merge(name, cs, f, s) ==
            if Compare(cs, name(f[0]), name(s[0])) < 0 then [f[0]] + Merge(name, cs, f[1..], s)
            else [s[0]] + Merge(name, cs, f, s[1..])
  {
    hide Compare;
  }

  lemma Counted<T>(s: seq<T>)
    requires s != []
    ensures multiset(s) == multiset{s[0]} + multiset(s[1..])
  {
    assert s == [s[0]] + s[1..];
  }

  lemma {:induction false} MergeKeeps<T>(name: T -> string, cs: bool, f: seq<T>, s: seq<T>)
    ensures multiset(Merge(name, cs, f, s)) == multiset(f) + multiset(s)
  {
    if f != [] && s != [] {
      hide Merge, Compare;
      MergeUnfold(name, cs, f, s);
      if Compare(cs, name(f[0]), name(s[0])) < 0 {
        MergeKeeps(name, cs, f[1..], s);
        Counted(f);
      } else {
        MergeKeeps(name, cs, f, s[1..]);
        Counted(s);
      }
    }
  }

  lemma Member<T>(m: seq<T>, f: seq<T>, s: seq<T>, x: T)
    requires multiset(m) == multiset(f) + multiset(s)
    ensures x in m <==> x in f || x in s
  {
    assert x in m <==> x in multiset(m);
  }

  lemma {:induction false} MergeOrdered<T>(name: T -> string, cs: bool, f: seq<T>, s: seq<T>)
    requires Ordered(name, cs, f) && Ordered(name, cs, s)
    ensures Ordered(name, cs, Merge(name, cs, f, s))
  {
    if f != [] && s != [] {
      CompareSwaps(cs, name(f[0]), name(s[0]));
      if Compare(cs, name(f[0]), name(s[0])) < 0 {
        MergeOrdered(name, cs, f[1..], s);
        MergedAbove(name, cs, f[0], f[1..], s, f, s);
      } else {
        MergeOrdered(name, cs, f, s[1..]);
        MergedAbove(name, cs, s[0], f, s[1..], f, s);
      }
    }
  }

  lemma MergedAbove<T>(name: T -> string, cs: bool, first: T, f: seq<T>, s: seq<T>, f0: seq<T>, s0: seq<T>)
    requires f0 != [] && s0 != [] && Ordered(name, cs, f0) && Ordered(name, cs, s0)
    requires (forall x :: x in f ==> x in f0) && (forall x :: x in s ==> x in s0)
    requires first == f0[0] || Below(name, cs, first, f0[0])
    requires first == s0[0] || Below(name, cs, first, s0[0])
    requires Ordered(name, cs, Merge(name, cs, f, s))
    ensures Ordered(name, cs, [first] + Merge(name, cs, f, s))
  {
    hide Ordered, Merge, Below;
    var m := Merge(name, cs, f, s);
    MergeKeeps(name, cs, f, s);
    forall x | x in m ensures Below(name, cs, first, x) {
      Member(m, f, s, x);
      if x in f {
        LowestFirst(name, cs, f0, first, x);
      } else {
        LowestFirst(name, cs, s0, first, x);
      }
    }
    OrderedCons(name, cs, first, m);
  }

  lemma LowestFirst<T>(name: T -> string, cs: bool, s: seq<T>, first: T, x: T)
    requires Ordered(name, cs, s) && x in s && (first == s[0] || Below(name, cs, first, s[0]))
    ensures Below(name, cs, first, x)
  {
    CompareSwaps(cs, name(first), name(first));
    if first != s[0] && x != s[0] { CompareTrans(cs, name(first), name(s[0]), name(x)); }
  }

  lemma OrderedCons<T>(name: T -> string, cs: bool, first: T, m: seq<T>)
    requires Ordered(name, cs, m) && forall x :: x in m ==> Below(name, cs, first, x)
    ensures Ordered(name, cs, [first] + m)
  {
  }

  lemma {:induction false} UpOrdered<T>(name: T -> string, cs: bool, s: seq<T>)
    requires StrictlyUp(name, cs, s)
    ensures Ordered(name, cs, s)
  {
    if |s| > 1 {
      UpOrdered(name, cs, s[1..]);
      forall x | x in s[1..] ensures Below(name, cs, s[0], x) { LowestFirst(name, cs, s[1..], s[0], x); }
      OrderedCons(name, cs, s[0], s[1..]);
      assert s == [s[0]] + s[1..];
    }
  }

  lemma MergeSorted<T>(name: T -> string, cs: bool, f: seq<T>, s: seq<T>, whole: seq<T>)
    requires Ordered(name, cs, f) && Ordered(name, cs, s) && multiset(f) + multiset(s) == multiset(whole)
    ensures Ordered(name, cs, Merge(name, cs, f, s)) && multiset(Merge(name, cs, f, s)) == multiset(whole)
  {
    hide Ordered, Merge;
    MergeOrdered(name, cs, f, s);
    MergeKeeps(name, cs, f, s);
  }

  /** Sorting gives an ordered permutation. */
  lemma {:induction false} SortSorts<T>(name: T -> string, cs: bool, s: seq<T>)
    ensures Ordered(name, cs, Sort(name, cs, s)) && multiset(Sort(name, cs, s)) == multiset(s)
    decreases |s|
  {
    hide Ordered, Merge, Sort, StrictlyUp;
    SortUnfold(name, cs, s);
    if |s| <= 1 {
      FewOrdered(name, cs, s);
    } else if StrictlyUp(name, cs, s) {
      UpOrdered(name, cs, s);
    } else {
      var half := (|s| + 1) / 2;
      SortSorts(name, cs, s[..half]);
      SortSorts(name, cs, s[half..]);
      HalvesKeep(s, half);
      MergeSorted(name, cs, Sort(name, cs, s[..half]), Sort(name, cs, s[half..]), s);
    }
  }

  lemma SortUnfold<T>(name: T -> string, cs: bool, s: seq<T>)
    ensures Sort(name, cs, s) ==
            if |s| <= 1 || StrictlyUp(name, cs, s) then s
            else var half := (|s| + 1) / 2; Merge(name, cs, Sort(name, cs, s[..half]), Sort(name, cs, s[half..]))
  {
  }

  lemma HalvesKeep<T>(s: seq<T>, half: nat)
    requires half <= |s|
    ensures multiset(s[..half]) + multiset(s[half..]) == multiset(s)
  {
    assert s == s[..half] + s[half..];
  }

  lemma FewOrdered<T>(name: T -> string, cs: bool, s: seq<T>)
    requires |s| <= 1
    ensures Ordered(name, cs, s)
  {
  }

  // ----- the list in memory

  class Node {
    const name: string
    var next: Node?
    var prev: Node?

    constructor (name: string)
      ensures this.name == name && next == null && prev == null
    {
      this.name := name;
      next, prev := null, null;
    }
  }

  function NameOf(n: Node): string { n.name }

  predicate Distinct(s: seq<Node>) { forall i, j :: 0 <= i < j < |s| ==> s[i] != s[j] }

  /** The nodes follow each other, forwards from the first and, if `back`, backwards from the last, the first
      one's `prev` being anything. */
  ghost predicate Linked(back: bool, s: seq<Node>)
    reads s
  {
    forall i :: 0 <= i < |s| - 1 ==> s[i].next == s[i + 1] && (back ==> s[i + 1].prev == s[i])
  }

  ghost predicate Ends(s: seq<Node>)
    reads s
  {
    s == [] || s[|s| - 1].next == null
  }

  function Head(s: seq<Node>): Node? { if s == [] then null else s[0] }

  /** A list as `sort_list` walks it. */
  ghost predicate List(back: bool, s: seq<Node>)
    reads s
  {
    Distinct(s) && Linked(back, s) && Ends(s)
  }

  ghost function Prevs(s: seq<Node>): (p: seq<Node?>)
    reads s
    ensures |p| == |s| && forall i :: 0 <= i < |s| ==> p[i] == s[i].prev
  {
    if s == [] then [] else [s[0].prev] + Prevs(s[1..])
  }

  /** The `prev` links p that `sort_list` follows are right: those of the middle nodes of the list and, down the
      recursion, of its halves. A strictly ascending part is left as it is. */
  predicate Splits(cs: bool, s: seq<Node>, p: seq<Node?>)
    requires |p| == |s|
    decreases |s|
  {
    var half := (|s| + 1) / 2;
    |s| <= 1 || StrictlyUp(NameOf, cs, s)
    || (p[half] == s[half - 1] && Splits(cs, s[..half], p[..half]) && Splits(cs, s[half..], p[half..]))
  }

  lemma SplitsHalves(cs: bool, s: seq<Node>, p: seq<Node?>)
    requires |p| == |s| > 1 && Splits(cs, s, p) && !StrictlyUp(NameOf, cs, s)
    ensures var half := (|s| + 1) / 2;
            p[half] == s[half - 1] && Splits(cs, s[..half], p[..half]) && Splits(cs, s[half..], p[half..])
  {
    hide StrictlyUp;
  }

  lemma {:induction false} BackSplits(cs: bool, s: seq<Node>, p: seq<Node?>)
    requires |p| == |s| && forall i :: 0 < i < |s| ==> p[i] == s[i - 1]
    ensures Splits(cs, s, p)
    decreases |s|
  {
    hide StrictlyUp;
    if |s| > 1 {
      var half := (|s| + 1) / 2;
      BackSplits(cs, s[..half], p[..half]);
      BackSplits(cs, s[half..], p[half..]);
    }
  }

  /** The first node's link is not among them. */
  lemma {:induction false} SplitsKept(cs: bool, s: seq<Node>, p: seq<Node?>, q: seq<Node?>)
    requires |p| == |q| == |s| && Splits(cs, s, p) && forall i :: 0 < i < |s| ==> q[i] == p[i]
    ensures Splits(cs, s, q)
    decreases |s|
  {
    hide StrictlyUp;
    if |s| > 1 && !StrictlyUp(NameOf, cs, s) {
      var half := (|s| + 1) / 2;
      SplitsKept(cs, s[..half], p[..half], q[..half]);
      SplitsKept(cs, s[half..], p[half..], q[half..]);
    }
  }

  /** The test for a list that is sorted already. */
  method AlreadyUp(list: Node?, cs: bool, ghost s: seq<Node>) returns (up: bool)
    requires List(false, s) && list == Head(s) && |s| > 1
    ensures up == StrictlyUp(NameOf, cs, s)
  {
    var current := list;
    ghost var i := 0;
    while current != null && current.next != null && Compare(cs, current.name, current.next.name) < 0
      invariant 0 <= i < |s| && current == s[i]
      invariant forall k :: 0 <= k < i ==> Compare(cs, NameOf(s[k]), NameOf(s[k + 1])) < 0
      decreases |s| - i
    {
      current := current.next;
      i := i + 1;
    }
    up := current == null || current.next == null;
    if !up { assert Compare(cs, NameOf(s[i]), NameOf(s[i + 1])) >= 0; }
  }

  /** Two pointers, one twice as fast: the slow one ends half way. */
  method Middle(list: Node?, ghost s: seq<Node>) returns (second: Node?)
    requires List(false, s) && list == Head(s) && |s| > 1
    ensures second == s[(|s| + 1) / 2]
  {
    second := list;
    var current := list;
    ghost var i := 0;
    while current != null
      invariant 0 <= i <= (|s| + 1) / 2 && second == s[i]
      invariant current == if 2 * i < |s| then s[2 * i] else null
      decreases |s| - i
    {
      assert 2 * i + 1 < |s| ==> s[2 * i].next == s[2 * i + 1];
      assert 2 * i + 2 < |s| ==> s[2 * i + 1].next == s[2 * i + 2];
      second := second.next;
      current := current.next;
      if current != null { current := current.next; }
      i := i + 1;
    }
  }

  /** Cutting before a node, as far as its `prev` says what is there. */
  method Cut(second: Node)
    modifies second, second.prev
    ensures second.prev == null && second.next == if old(second.prev) == second then null else old(second.next)
    ensures old(second.prev) != null ==> old(second.prev).next == null
    ensures old(second.prev) != null && old(second.prev) != second ==> old(second.prev).prev == old(second.prev.prev)
    ensures old(second.prev) == null ==> unchanged(second)
  {
    if second.prev != null {
      second.prev.next := null;
      second.prev := null;
    }
  }

  /** Cutting before the middle node leaves two lists exactly if its `prev` is the node before it. */
  method Split(ghost back: bool, second: Node, ghost s: seq<Node>, ghost half: nat)
    requires List(back, s) && 0 < half < |s| && second == s[half]
    modifies second, second.prev
    ensures List(false, s[..half]) && List(false, s[half..]) <==> old(second.prev) == s[half - 1]
    ensures old(second.prev) == s[half - 1] ==> List(back, s[..half]) && List(back, s[half..])
    ensures old(second.prev) == s[half - 1] ==> forall i :: 0 <= i < |s| && i != half ==> s[i].prev == old(s[i].prev)
  {
    assert s[half - 1].next == second;
    Cut(second);
    if old(second.prev) != s[half - 1] {
      assert s[..half][half - 1] == s[half - 1] && s[half - 1].next == second;
    }
  }

  /** Without right `prev` links the split can fail: two nodes in the wrong order, the second pointing nowhere
      back. The middle is the second node and cutting before it changes nothing, so that the recursion starts
      from the very same list. */
  method NothingCut(list: Node, second: Node, cs: bool) returns (up: bool, middle: Node?)
    requires list.next == second && second.next == null && second.prev == null
    requires Compare(cs, list.name, second.name) >= 0
    modifies list, second
    ensures !up && middle == second && unchanged(list) && unchanged(second)
  {
    up := Compare(cs, list.name, list.next.name) < 0;
    var current: Node? := list;
    middle := list;
    while current != null
      invariant (current == list && middle == list) || (current == null && middle == second)
      decreases current != null
    {
      middle := middle.next;
      current := current.next;
      if current != null { current := current.next; }
    }
    Cut(middle);
  }

  predicate Apart(a: seq<Node>, b: seq<Node>) { forall x :: x in a ==> x !in b }

  /** While merging: the part done, linked but with its end still pointing elsewhere, and the two rests. */
  ghost predicate Merging(back: bool, result: Node?, tail: Node?, done: seq<Node>, f: seq<Node>, s: seq<Node>)
    reads done, f, s
  {
    && result == Head(done) && tail == (if done == [] then null else done[|done| - 1])
    && Distinct(done) && Linked(back, done) && List(back, f) && List(back, s)
    && Apart(done, f) && Apart(done, s) && Apart(f, s)
  }

  lemma MergingSwaps(back: bool, result: Node?, tail: Node?, done: seq<Node>, f: seq<Node>, s: seq<Node>)
    requires Merging(back, result, tail, done, f, s)
    ensures Merging(back, result, tail, done, s, f)
  {
  }

  lemma MergingStart(back: bool, f: seq<Node>, s: seq<Node>)
    requires List(back, f) && List(back, s) && Apart(f, s)
    ensures Merging(back, null, null, [], f, s)
  {
  }

  /** The first node of one rest is linked behind the part done. */
  method Take(ghost back: bool, result: Node?, tail: Node?, node: Node, ghost done: seq<Node>, ghost f: seq<Node>, ghost s: seq<Node>)
    returns (head: Node, next: Node?)
    requires Merging(back, result, tail, done, f, s) && f != [] && node == f[0]
    modifies tail, node
    ensures Merging(back, head, node, done + [node], f[1..], s) && next == Head(f[1..])
  {
    assert node !in done && node !in s && tail !in f && tail !in s;
    if result == null {
      head := node;
    } else {
      head := result;
      tail.next := node;
      node.prev := tail;
    }
    next := node.next;
    assert Linked(back, done + [node]);
    assert List(back, s);
    assert List(back, f[1..]);
  }

  /** One rest is linked as a whole when the other is used up. */
  method TakeAll(ghost back: bool, result: Node?, tail: Node?, node: Node, ghost done: seq<Node>, ghost f: seq<Node>)
    returns (head: Node)
    requires Merging(back, result, tail, done, f, []) && f != [] && node == f[0]
    modifies tail, node
    ensures List(back, done + f) && head == Head(done + f)
  {
    assert node !in done && tail !in f;
    if result == null {
      assert done + f == f;
      return node;
    }
    head := result;
    tail.next := node;
    node.prev := tail;
    assert forall i :: 0 <= i < |f| ==> f[i] !in done;
    assert Distinct(done + f);
    assert Linked(back, done + f);
  }

  lemma MergeStep(cs: bool, done: seq<Node>, f: seq<Node>, s: seq<Node>)
    requires f != [] && s != []
    ensures done + Merge(NameOf, cs, f, s) ==
            if Compare(cs, f[0].name, s[0].name) < 0 then (done + [f[0]]) + Merge(NameOf, cs, f[1..], s)
            else (done + [s[0]]) + Merge(NameOf, cs, f, s[1..])
  {
    Assoc(done, [f[0]], Merge(NameOf, cs, f[1..], s));
    Assoc(done, [s[0]], Merge(NameOf, cs, f, s[1..]));
  }

  lemma MergeEnds(cs: bool, f: seq<Node>, s: seq<Node>)
    requires f == [] || s == []
    ensures Merge(NameOf, cs, f, s) == f + s
  {
  }

  /** One turn of the merging loop. */
  method MergeTurn(ghost back: bool, result: Node?, tail: Node?, first: Node, second: Node, cs: bool,
                   ghost done: seq<Node>, ghost f: seq<Node>, ghost s: seq<Node>)
    returns (result': Node, tail': Node, first': Node?, second': Node?,
             ghost done': seq<Node>, ghost f': seq<Node>, ghost s': seq<Node>)
    requires Merging(back, result, tail, done, f, s) && f != [] && s != [] && first == f[0] && second == s[0]
    modifies tail, first, second
    ensures Merging(back, result', tail', done', f', s') && first' == Head(f') && second' == Head(s') && (f' != [] || s' != [])
    ensures done' + Merge(NameOf, cs, f', s') == done + Merge(NameOf, cs, f, s)
    ensures done' == done + [tail'] && (tail' == first || tail' == second)
    ensures (f' == f[1..] && s' == s) || (f' == f && s' == s[1..])
  {
    hide Merging, Merge, Compare;
    MergeStep(cs, done, f, s);
    first', second', f', s' := first, second, f, s;
    if Compare(cs, first.name, second.name) < 0 {
      result', first' := Take(back, result, tail, first, done, f, s);
      tail', done', f' := first, done + [first], f[1..];
    } else {
      MergingSwaps(back, result, tail, done, f, s);
      result', second' := Take(back, result, tail, second, done, s, f);
      tail', done', s' := second, done + [second], s[1..];
      MergingSwaps(back, result', tail', done', s', f);
    }
  }

  /** The merging loop and what follows it. */
  method MergeLists(ghost back: bool, first0: Node, second0: Node, cs: bool, ghost f0: seq<Node>, ghost s0: seq<Node>)
    returns (merged: Node, ghost nodes: seq<Node>)
    requires f0 != [] && s0 != [] && first0 == f0[0] && second0 == s0[0]
    requires List(back, f0) && List(back, s0) && Apart(f0, s0)
    modifies f0, s0
    ensures nodes == Merge(NameOf, cs, f0, s0) && List(back, nodes) && merged == Head(nodes)
  {
    hide List, Merging, Merge, Apart;
    var first: Node?, second: Node?, result: Node?, tail: Node? := first0, second0, null, null;
    ghost var done: seq<Node>, f, s := [], f0, s0;
    nodes := Merge(NameOf, cs, f0, s0);
    assert [] + nodes == nodes;
    MergingStart(back, f, s);
    while first != null && second != null
      invariant Merging(back, result, tail, done, f, s) && first == Head(f) && second == Head(s) && (f != [] || s != [])
      invariant tail != null ==> tail in f0 || tail in s0
      invariant |f| <= |f0| && f == f0[|f0| - |f|..] && |s| <= |s0| && s == s0[|s0| - |s|..]
      invariant done + Merge(NameOf, cs, f, s) == nodes
      decreases |f| + |s|
    {
      assert first == f0[|f0| - |f|] && second == s0[|s0| - |s|];
      result, tail, first, second, done, f, s := MergeTurn(back, result, tail, first, second, cs, done, f, s);
    }
    MergeEnds(cs, f, s);
    if first != null {
      assert first == f0[|f0| - |f|] && f + s == f;
      merged := TakeAll(back, result, tail, first, done, f);
    } else {
      assert second == s0[|s0| - |s|] && f + s == s;
      MergingSwaps(back, result, tail, done, f, s);
      merged := TakeAll(back, result, tail, second, done, s);
    }
  }

  lemma Halves(back: bool, s: seq<Node>, half: nat)
    requires List(back, s) && half <= |s|
    ensures Apart(s[..half], s[half..])
  {
  }

  lemma Forwards(back: bool, s: seq<Node>)
    requires List(back, s)
    ensures List(false, s) && (s != [] ==> (s[0].next == null <==> |s| == 1))
  {
    assert |s| > 1 ==> s[0].next == s[1];
  }

  lemma SameNodes(a: seq<Node>, b: seq<Node>)
    requires multiset(a) == multiset(b)
    ensures |a| == |b| && forall x :: x in a <==> x in b
  {
    assert |a| == |multiset(a)| && |b| == |multiset(b)|;
    forall x ensures x in a <==> x in b { assert x in a <==> x in multiset(a); }
  }

  /** Both halves sorted, one after the other; neither touches the other's nodes. */
  method SortHalves(ghost back: bool, list: Node, second: Node, cs: bool, ghost a: seq<Node>, ghost b: seq<Node>)
    returns (first': Node, second': Node, ghost f: seq<Node>, ghost g: seq<Node>)
    requires List(back, a) && List(back, b) && Apart(a, b) && list == Head(a) && second == Head(b)
    requires Splits(cs, a, Prevs(a)) && Splits(cs, b, Prevs(b))
    modifies a, b
    ensures f == Sort(NameOf, cs, a) && g == Sort(NameOf, cs, b) && List(back, f) && List(back, g) && Apart(f, g)
    ensures first' == Head(f) && second' == Head(g)
    ensures (forall x :: x in f ==> x in a) && (forall x :: x in g ==> x in b)
    decreases |a| + |b|, 0
  {
    hide Sort, Ordered, Splits, Prevs;
    var head, f' := SortNodes(back, list, cs, a);
    assert forall i :: 0 <= i < |b| ==> b[i] in b && b[i] !in a;
    SameNodes(f', a);
    var head', g' := SortNodes(back, second, cs, b);
    assert forall i :: 0 <= i < |f'| ==> f'[i] in f' && f'[i] !in b;
    SameNodes(g', b);
    first', second', f, g := head, head', f', g';
  }

  method SortAndMerge(ghost back: bool, list: Node, second: Node, cs: bool, ghost a: seq<Node>, ghost b: seq<Node>)
    returns (result: Node, ghost sorted: seq<Node>)
    requires List(back, a) && List(back, b) && Apart(a, b) && list == Head(a) && second == Head(b)
    requires Splits(cs, a, Prevs(a)) && Splits(cs, b, Prevs(b))
    modifies a, b
    ensures sorted == Merge(NameOf, cs, Sort(NameOf, cs, a), Sort(NameOf, cs, b))
    ensures List(back, sorted) && result == Head(sorted)
    decreases |a| + |b|, 1
  {
    hide Merge, Sort, Splits, Prevs;
    var first', second', f, g := SortHalves(back, list, second, cs, a, b);
    assert forall i :: 0 <= i < |f| ==> f[i] in f && f[i] in a;
    assert forall i :: 0 <= i < |g| ==> g[i] in g && g[i] in b;
    result, sorted := MergeLists(back, first', second', cs, f, g);
  }

  /** The split of `sort_list`: two lists, and in both of them the links it will follow are right. */
  method SplitMiddle(ghost back: bool, second: Node, ghost cs: bool, ghost s: seq<Node>)
    requires List(back, s) && |s| > 1 && second == s[(|s| + 1) / 2]
    requires Splits(cs, s, Prevs(s)) && !StrictlyUp(NameOf, cs, s)
    modifies s
    ensures var half := (|s| + 1) / 2;
            var a, b := s[..half], s[half..];
            List(back, a) && List(back, b) && Apart(a, b) && Splits(cs, a, Prevs(a)) && Splits(cs, b, Prevs(b))
  {
    hide List, Splits, StrictlyUp, Prevs, Apart, Distinct;
    ghost var half, p := (|s| + 1) / 2, Prevs(s);
    Halves(back, s, half);
    SplitsHalves(cs, s, p);
    Split(back, second, s, half);
    SplitsKept(cs, s[..half], p[..half], Prevs(s[..half]));
    SplitsKept(cs, s[half..], p[half..], Prevs(s[half..]));
  }

  /** `sort_list`: the head of the sorted list. Of the `prev` links it needs those it follows; if all of them are
      right, they are again in the end. */
  method SortNodes(ghost back: bool, list: Node?, cs: bool, ghost s: seq<Node>) returns (result: Node?, ghost sorted: seq<Node>)
    requires List(back, s) && Splits(cs, s, Prevs(s)) && list == Head(s)
    modifies s
    ensures sorted == Sort(NameOf, cs, s) && List(back, sorted) && result == Head(sorted)
    ensures Ordered(NameOf, cs, sorted) && multiset(sorted) == multiset(s)
    decreases |s|, 2
  {
    hide Ordered, Merge, Sort, List, Splits, StrictlyUp, Prevs, Apart;
    SortSorts(NameOf, cs, s);
    SortUnfold(NameOf, cs, s);
    Forwards(back, s);
    if list == null || list.next == null { return list, s; }
    ghost var half := (|s| + 1) / 2;
    var up := AlreadyUp(list, cs, s);
    if up { return list, s; }
    var second := Middle(list, s);
    SplitMiddle(back, second, cs, s);
    ghost var a, b := s[..half], s[half..];
    assert (forall x :: x in a ==> x in s) && (forall x :: x in b ==> x in s);
    result, sorted := SortAndMerge(back, list, second, cs, a, b);
  }

  /** `sort_object`: the lists the library builds have all their `prev` links right but the first. */
  method SortObject(list: Node?, cs: bool, ghost s: seq<Node>) returns (result: Node?, ghost sorted: seq<Node>)
    requires List(true, s) && list == Head(s)
    modifies s
    ensures sorted == Sort(NameOf, cs, s) && List(true, sorted) && result == Head(sorted)
    ensures Ordered(NameOf, cs, sorted) && multiset(sorted) == multiset(s)
  {
    BackSplits(cs, s, Prevs(s));
    result, sorted := SortNodes(true, list, cs, s);
  }
}
