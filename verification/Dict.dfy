/** The chained hash table of hiredis, its entries linked in a memory that can be allocated and freed. */
module Dict {
  import opened Basics

  /** Values are pointers to the dictionary. */
  type Val = nat

  datatype Entry = Entry(key: string, val: Val)

  type Chain = seq<Entry>

  const INITIAL_SIZE: nat := 4

  /** The value of a key in a chain. */
  function Lookup(c: Chain, key: string): Option<Val> {
    if c == [] then None else if c[0].key == key then Some(c[0].val) else Lookup(c[1..], key)
  }

  function Total(t: seq<Chain>): nat {
    if t == [] then 0 else |t[0]| + Total(t[1..])
  }

  predicate DistinctKeys(c: Chain) { forall i, j :: 0 <= i < j < |c| ==> c[i].key != c[j].key }

  predicate PowerOfTwo(n: nat) { n == 1 || (n > 1 && n % 2 == 0 && PowerOfTwo(n / 2)) }

  /** The bucket of a key: the source masks the hash with the power-of-two size less one. */
  function Slot(hash: string -> nat, key: string, size: nat): (h: nat)
    requires size > 0
    ensures h < size
  {
    hash(key) % size
  }

  /** Entries sit in their own bucket, no key twice. */
  predicate ChainOk(hash: string -> nat, size: nat, i: nat, c: Chain)
    requires size > 0
  {
    DistinctKeys(c) && forall j :: 0 <= j < |c| ==> Slot(hash, c[j].key, size) == i
  }

  predicate TableOk(hash: string -> nat, t: seq<Chain>) {
    forall i :: 0 <= i < |t| ==> ChainOk(hash, |t|, i, t[i])
  }

  function Get(hash: string -> nat, t: seq<Chain>, key: string): Option<Val> {
    if t == [] then None else Lookup(t[Slot(hash, key, |t|)], key)
  }

  ghost predicate Refines(hash: string -> nat, t: seq<Chain>, m: map<string, Val>) {
    forall key :: Get(hash, t, key) == if key in m then Some(m[key]) else None
  }

  // ----- chains

  /** Without element k. */
  function Cut<T>(c: seq<T>, k: nat): (r: seq<T>)
    requires k < |c|
    ensures |r| == |c| - 1
  {
    c[..k] + c[k + 1..]
  }

  lemma {:induction false} LookupAt(c: Chain, i: nat)
    requires DistinctKeys(c) && i < |c|
    ensures Lookup(c, c[i].key) == Some(c[i].val)
  {
    if i > 0 {
      assert c[0].key != c[i].key && c[i] == c[1..][i - 1];
      LookupAt(c[1..], i - 1);
    }
  }

  lemma {:induction false} LookupNone(c: Chain, key: string)
    ensures Lookup(c, key) == None <==> forall i :: 0 <= i < |c| ==> c[i].key != key
  {
    if c != [] {
      LookupNone(c[1..], key);
      assert forall i :: 1 <= i < |c| ==> c[i] == c[1..][i - 1];
    }
  }

  lemma {:induction false} LookupPrefix(c: Chain, k: nat, key: string)
    requires DistinctKeys(c) && k < |c|
    ensures Lookup(c[..k + 1], key) == if key == c[k].key then Some(c[k].val) else Lookup(c[..k], key)
  {
    if k > 0 {
      LookupPrefix(c[1..], k - 1, key);
      assert c[..k + 1][1..] == c[1..][..k] && c[..k][1..] == c[1..][..k - 1];
    }
  }

  lemma {:induction false} LookupWithout(c: Chain, k: nat, key: string)
    requires DistinctKeys(c) && k < |c|
    ensures Lookup(Cut(c, k), key) == if key == c[k].key then None else Lookup(c, key)
  {
    if k == 0 {
      assert c[..0] + c[1..] == c[1..];
      LookupNone(c[1..], c[0].key);
    } else {
      LookupWithout(c[1..], k - 1, key);
      var d := c[..k] + c[k + 1..];
      assert d[0] == c[0] && d[1..] == c[1..][..k - 1] + c[1..][k..];
    }
  }

  lemma {:induction false} TotalUpdate(t: seq<Chain>, i: nat, c: Chain)
    requires i < |t|
    ensures Total(t[i := c]) == Total(t) - |t[i]| + |c|
    ensures |t[i]| <= Total(t)
  {
    if i > 0 {
      assert t[i := c][1..] == t[1..][i - 1 := c];
      TotalUpdate(t[1..], i - 1, c);
    } else {
      assert t[0 := c][1..] == t[1..];
    }
  }

  lemma {:induction false} TotalZero(t: seq<Chain>, i: nat)
    requires Total(t) == 0 && i < |t|
    ensures t[i] == []
  {
    if i > 0 { TotalZero(t[1..], i - 1); }
  }

  lemma {:induction false} TotalEmpty(t: seq<Chain>)
    requires forall i :: 0 <= i < |t| ==> t[i] == []
    ensures Total(t) == 0
  {
    if t != [] { TotalEmpty(t[1..]); }
  }

  // ----- one bucket replaced

  lemma GetUpdate(hash: string -> nat, t: seq<Chain>, i: nat, c: Chain, key: string)
    requires i < |t|
    ensures Get(hash, t[i := c], key) == if Slot(hash, key, |t|) == i then Lookup(c, key) else Get(hash, t, key)
  {
  }

  /** A new entry at the head of its bucket. */
  function Added(hash: string -> nat, t: seq<Chain>, e: Entry): seq<Chain>
    requires t != []
  {
    var i := Slot(hash, e.key, |t|);
    t[i := [e] + t[i]]
  }

  lemma AddKeeps(hash: string -> nat, t: seq<Chain>, e: Entry)
    requires t != [] && TableOk(hash, t) && Get(hash, t, e.key) == None
    ensures TableOk(hash, Added(hash, t, e)) && Total(Added(hash, t, e)) == Total(t) + 1
    ensures forall key :: Get(hash, Added(hash, t, e), key) == if key == e.key then Some(e.val) else Get(hash, t, key)
  {
    var i := Slot(hash, e.key, |t|);
    var c := [e] + t[i];
    assert c[1..] == t[i];
    LookupNone(t[i], e.key);
    TotalUpdate(t, i, c);
    forall key ensures Get(hash, t[i := c], key) == if key == e.key then Some(e.val) else Get(hash, t, key) {
      GetUpdate(hash, t, i, c, key);
    }
  }

  lemma DeleteKeeps(hash: string -> nat, t: seq<Chain>, i: nat, k: nat)
    requires i < |t| && k < |t[i]| && TableOk(hash, t)
    ensures var t' := t[i := Cut(t[i], k)];
            && TableOk(hash, t') && Total(t') == Total(t) - 1
            && forall key :: Get(hash, t', key) == if key == t[i][k].key then None else Get(hash, t, key)
  {
    var c := Cut(t[i], k);
    TotalUpdate(t, i, c);
    forall key ensures Get(hash, t[i := c], key) == if key == t[i][k].key then None else Get(hash, t, key) {
      GetUpdate(hash, t, i, c, key);
      LookupWithout(t[i], k, key);
    }
  }

  lemma {:induction false} LookupSet(c: Chain, k: nat, val: Val, key: string)
    requires DistinctKeys(c) && k < |c|
    ensures Lookup(c[k := Entry(c[k].key, val)], key) == if key == c[k].key then Some(val) else Lookup(c, key)
  {
    var d := c[k := Entry(c[k].key, val)];
    if k > 0 {
      assert d[1..] == c[1..][k - 1 := Entry(c[k].key, val)];
      LookupSet(c[1..], k - 1, val, key);
    } else {
      assert d[1..] == c[1..];
    }
  }

  lemma SetKeeps(hash: string -> nat, t: seq<Chain>, i: nat, k: nat, val: Val)
    requires i < |t| && k < |t[i]| && TableOk(hash, t)
    ensures var t' := t[i := t[i][k := Entry(t[i][k].key, val)]];
            && TableOk(hash, t') && Total(t') == Total(t)
            && forall key :: Get(hash, t', key) == if key == t[i][k].key then Some(val) else Get(hash, t, key)
  {
    var c := t[i][k := Entry(t[i][k].key, val)];
    TotalUpdate(t, i, c);
    forall key ensures Get(hash, t[i := c], key) == if key == t[i][k].key then Some(val) else Get(hash, t, key) {
      GetUpdate(hash, t, i, c, key);
      LookupSet(t[i], k, val, key);
    }
  }

  // ----- moving to a larger table

  /** What the new table holds when the buckets before i and j entries of bucket i were moved. */
  function Moved(hash: string -> nat, t: seq<Chain>, i: nat, j: nat, key: string): Option<Val>
    requires i < |t| ==> j <= |t[i]|
  {
    if t == [] then None else
    var s := Slot(hash, key, |t|);
    if s < i then Lookup(t[s], key) else if s == i then Lookup(t[s][..j], key) else None
  }

  lemma MoveEntry(hash: string -> nat, t: seq<Chain>, i: nat, j: nat, key: string)
    requires TableOk(hash, t) && i < |t| && j < |t[i]|
    ensures Moved(hash, t, i, j + 1, key) == if key == t[i][j].key then Some(t[i][j].val) else Moved(hash, t, i, j, key)
    ensures Moved(hash, t, i, j, t[i][j].key) == None
  {
    assert ChainOk(hash, |t|, i, t[i]);
    LookupPrefix(t[i], j, key);
    LookupNone(t[i][..j], t[i][j].key);
    assert Slot(hash, t[i][j].key, |t|) == i;
  }

  lemma MoveBucket(hash: string -> nat, t: seq<Chain>, i: nat, key: string)
    requires i < |t|
    ensures Moved(hash, t, i, |t[i]|, key) == Moved(hash, t, i + 1, 0, key)
  {
    assert t[i][..|t[i]|] == t[i];
  }

  lemma MovedAll(hash: string -> nat, t: seq<Chain>, i: nat, key: string)
    requires i <= |t| && Total(t[i..]) == 0
    ensures Moved(hash, t, i, 0, key) == Get(hash, t, key)
  {
    if t != [] && Slot(hash, key, |t|) >= i { TotalZero(t[i..], Slot(hash, key, |t|) - i); }
  }

  /** Of the chains v, n belong to the new table and hold what was moved so far; the others hold what is left of
      the old table t, the first `done` entries of bucket i being moved. */
  ghost predicate Partly(hash: string -> nat, v: seq<Chain>, n: nat, t: seq<Chain>, i: nat, done: nat) {
    && n > 0 && |v| == n + |t| && i <= |t| && (i < |t| ==> done <= |t[i]| && v[n + i] == t[i][done..]) && (i == |t| ==> done == 0)
    && (forall q :: n <= q < n + i ==> v[q] == []) && (forall q :: n + i < q < |v| ==> v[q] == t[q - n])
    && TableOk(hash, t) && TableOk(hash, v[..n]) && Total(v[..n]) + Total(t[i..]) == Total(t) + done
    && forall key :: Get(hash, v[..n], key) == Moved(hash, t, i, done, key)
  }

  lemma PartlyStart(hash: string -> nat, n: nat, t: seq<Chain>)
    requires n > 0 && TableOk(hash, t)
    ensures Partly(hash, seq(n, _ => []) + t, n, t, 0, 0)
  {
    var v: seq<Chain> := seq(n, _ => []) + t;
    assert t[0..] == t && (t != [] ==> t[0][0..] == t[0]);
    EmptyTable(hash, v[..n]);
  }

  lemma PartlyStep(hash: string -> nat, v: seq<Chain>, n: nat, t: seq<Chain>, i: nat, done: nat)
    requires Partly(hash, v, n, t, i, done) && i < |t| && done < |t[i]|
    ensures v[n + i] != [] && Partly(hash, Shift(v, n + i, Slot(hash, t[i][done].key, n)), n, t, i, done + 1)
  {
    hide Lookup, Total, TableOk, Moved, Get;
    var e := t[i][done];
    var h := Slot(hash, e.key, n);
    var w := Shift(v, n + i, h);
    assert v[n + i][0] == e && v[n + i][1..] == t[i][done + 1..];
    forall key ensures Moved(hash, t, i, done + 1, key) == (if key == e.key then Some(e.val) else Moved(hash, t, i, done, key)) {
      MoveEntry(hash, t, i, done, key);
    }
    MoveEntry(hash, t, i, done, e.key);
    AddKeeps(hash, v[..n], e);
    assert w[..n] == Added(hash, v[..n], e);
  }

  lemma PartlyNext(hash: string -> nat, v: seq<Chain>, n: nat, t: seq<Chain>, i: nat)
    requires i < |t| && Partly(hash, v, n, t, i, |t[i]|)
    ensures Partly(hash, v, n, t, i + 1, 0)
  {
    hide Lookup, Total, TableOk, Moved, Get;
    TotalFrom(t, i);
    forall key ensures Moved(hash, t, i, |t[i]|, key) == Moved(hash, t, i + 1, 0, key) { MoveBucket(hash, t, i, key); }
    assert i + 1 < |t| ==> t[i + 1][0..] == t[i + 1];
  }

  lemma PartlyEnd(hash: string -> nat, v: seq<Chain>, n: nat, t: seq<Chain>, i: nat)
    requires Partly(hash, v, n, t, i, 0) && Total(t[i..]) == 0
    ensures Total(v[..n]) == Total(t) && (forall key :: Get(hash, v[..n], key) == Get(hash, t, key))
    ensures forall q :: n <= q < |v| ==> v[q] == []
  {
    hide Lookup, Total, TableOk, Moved, Get;
    forall q | n <= q < |v| ensures v[q] == [] {
      if q >= n + i { TotalZero(t[i..], q - n - i); }
    }
    forall key ensures Get(hash, v[..n], key) == Get(hash, t, key) { MovedAll(hash, t, i, key); }
  }

  /** `_dictNextPower` below LONG_MAX. */
  method NextPower(size: nat) returns (i: nat)
    ensures PowerOfTwo(i) && i >= INITIAL_SIZE && i >= size
    ensures i == INITIAL_SIZE || i < 2 * size
  {
    i := INITIAL_SIZE;
    assert PowerOfTwo(2) && PowerOfTwo(4);
    while i < size
      invariant PowerOfTwo(i) && i >= INITIAL_SIZE && (i == INITIAL_SIZE || i < 2 * size)
      decreases size - i
    {
      assert (i * 2) / 2 == i;
      i := i * 2;
    }
  }

  // ----- entries in memory

  /** The address of an entry. */
  type Ref = nat

  const NULL: Ref := 0

  /** A `dictEntry`. */
  datatype Cell = Cell(key: string, val: Val, next: Ref)

  /** The entries allocated and not freed. */
  type Memory = map<Ref, Cell>

  function Head(c: seq<Ref>): Ref { if c == [] then NULL else c[0] }

  /** The cell of the first of some linked entries. */
  function CellOf(c: seq<Ref>, e: Entry): Cell
    requires c != []
  {
    Cell(e.key, e.val, Head(c[1..]))
  }

  /** The chain c is linked in memory and holds these entries. */
  ghost predicate Linked(mem: Memory, c: seq<Ref>, es: Chain) {
    |c| == |es| && forall k :: 0 <= k < |c| ==> c[k] != NULL && c[k] in mem && mem[c[k]] == CellOf(c[k..], es[k])
  }

  /** Chains of entries by their addresses and what they hold. */
  datatype Store = Store(refs: seq<seq<Ref>>, entries: seq<Chain>)

  /** No entry twice, in one chain or in two. */
  ghost predicate Apart(f: seq<seq<Ref>>) {
    forall i, k, j, l :: 0 <= i < |f| && 0 <= k < |f[i]| && 0 <= j < |f| && 0 <= l < |f[j]| && f[i][k] == f[j][l] ==> i == j && k == l
  }

  /** All chains are linked, and the heads of the first ones are in the table. */
  ghost predicate Held(mem: Memory, heads: seq<Ref>, s: Store) {
    match s
    case Store(f, v) =>
      && |heads| <= |f| == |v| && Apart(f)
      && (forall i :: 0 <= i < |f| ==> Linked(mem, f[i], v[i]))
      && (forall i :: 0 <= i < |heads| ==> heads[i] == Head(f[i]))
  }

  /** The first element of chain r goes to the head of chain h. */
  ghost function Shift<T>(f: seq<seq<T>>, r: nat, h: nat): (g: seq<seq<T>>)
    ensures |g| == |f|
  {
    if h < |f| && r < |f| && f[r] != [] then f[r := f[r][1..]][h := [f[r][0]] + f[h]] else f
  }

  lemma ShiftApart(f: seq<seq<Ref>>, r: nat, h: nat)
    requires r < |f| && h < |f| && r != h && f[r] != [] && Apart(f)
    ensures Apart(Shift(f, r, h))
  {
    var g := Shift(f, r, h);
    forall i, k | 0 <= i < |g| && 0 <= k < |g[i]| ensures Was(f, r, h, i, k) { }
  }

  ghost predicate Was(f: seq<seq<Ref>>, r: nat, h: nat, i: nat, k: nat)
    requires r < |f| && h < |f| && r != h && f[r] != [] && i < |f| && k < |Shift(f, r, h)[i]|
  {
    Shift(f, r, h)[i][k] == if i == h then if k == 0 then f[r][0] else f[h][k - 1] else if i == r then f[r][k + 1] else f[i][k]
  }

  /** Other entries' cells do not matter to a chain. */
  lemma LinkedFrame(mem: Memory, c: seq<Ref>, es: Chain, r: Ref, cell: Cell)
    requires Linked(mem, c, es) && r !in c
    ensures Linked(mem[r := cell], c, es)
  {
  }

  lemma LinkedTail(mem: Memory, c: seq<Ref>, es: Chain)
    requires Linked(mem, c, es) && c != []
    ensures Linked(mem, c[1..], es[1..]) && mem[c[0]].next == Head(c[1..]) && mem[c[0]].key == es[0].key && mem[c[0]].val == es[0].val
  {
    assert c[0..] == c;
    forall k | 0 <= k < |c[1..]| ensures mem[c[1..][k]] == CellOf(c[1..][k..], es[1..][k]) {
      assert c[1..][k..] == c[k + 1..];
    }
  }

  lemma LinkedCons(mem: Memory, r: Ref, c: seq<Ref>, e: Entry, es: Chain)
    requires Linked(mem, c, es) && r !in c && r != NULL
    ensures Linked(mem[r := Cell(e.key, e.val, Head(c))], [r] + c, [e] + es)
  {
    var m, d, ds := mem[r := Cell(e.key, e.val, Head(c))], [r] + c, [e] + es;
    assert d[1..] == c && d[0..] == d;
    forall k | 0 <= k < |d| ensures d[k] in m && m[d[k]] == CellOf(d[k..], ds[k]) {
      if k > 0 { assert d[k..] == c[k - 1..]; }
    }
  }

  /** The entry at the head of chain r is relinked to the head of chain h. */
  lemma HeldShift(mem: Memory, heads: seq<Ref>, s: Store, r: nat, h: nat)
    requires Held(mem, heads, s) && h < |heads| <= r < |s.refs| && s.refs[r] != []
    ensures s.entries[r] != [] && s.refs[r][0] in mem
    ensures var he := s.refs[r][0];
            Held(mem[he := mem[he].(next := heads[h])], heads[h := he], Store(Shift(s.refs, r, h), Shift(s.entries, r, h)))
  {
    var f, v := s.refs, s.entries;
    var he := f[r][0];
    var m := mem[he := mem[he].(next := heads[h])];
    var g, w := Shift(f, r, h), Shift(v, r, h);
    assert Linked(mem, f[r], v[r]) && Linked(mem, f[h], v[h]);
    ShiftApart(f, r, h);
    LinkedTail(mem, f[r], v[r]);
    forall i | 0 <= i < |g| ensures Linked(m, g[i], w[i]) {
      assert Linked(mem, f[i], v[i]);
      if i == h {
        LinkedCons(mem, he, f[h], v[r][0], v[h]);
      } else {
        LinkedFrame(mem, g[i], w[i], he, m[he]);
      }
    }
  }

  // ----- relinking the entries of a table

  /** How far an old table has been moved. */
  datatype Progress = Progress(before: seq<Chain>, bucket: nat, done: nat)

  /** Linked chains, those of the new table with their heads in it, on the way from the old table. */
  ghost predicate Moving(hash: string -> nat, mem: Memory, heads: seq<Ref>, s: Store, p: Progress) {
    match p
    case Progress(t, i, done) => Held(mem, heads, s) && Partly(hash, s.entries, |heads|, t, i, done)
  }

  ghost predicate Same<T>(f: seq<seq<T>>, g: seq<seq<T>>, r: nat) {
    |f| == |g| && forall q :: r <= q < |f| ==> g[q] == f[q]
  }

  /** The entry at he starts chain r. */
  ghost predicate Starts(he: Ref, f: seq<seq<Ref>>, r: nat) { r < |f| && he == Head(f[r]) }

  /** What is left of the chain at work is as long as what is left of it in the old table; its first entry is the
      next one. */
  lemma MovingHead(hash: string -> nat, mem: Memory, heads: seq<Ref>, s: Store, p: Progress, he: Ref)
    requires Moving(hash, mem, heads, s, p) && p.bucket < |p.before| && Starts(he, s.refs, |heads| + p.bucket)
    ensures p.done <= |p.before[p.bucket]| && (he == NULL <==> p.done == |p.before[p.bucket]|)
    ensures he != NULL ==> he in mem && s.refs[|heads| + p.bucket] != [] && mem[he].key == p.before[p.bucket][p.done].key
    ensures he != NULL ==> mem[he].next == Head(s.refs[|heads| + p.bucket][1..])
  {
    hide Held, Partly, Linked, Apart;
    var r, c := |heads| + p.bucket, p.before[p.bucket];
    HeldLinked(mem, heads, s);
    PartlyAt(hash, s.entries, |heads|, p.before, p.bucket, p.done);
    InMemory(mem, s.refs[r], s.entries[r]);
    if s.refs[r] != [] {
      LinkedTail(mem, s.refs[r], s.entries[r]);
      assert c[p.done..][0] == c[p.done];
    }
  }

  lemma PartlyAt(hash: string -> nat, v: seq<Chain>, n: nat, t: seq<Chain>, i: nat, done: nat)
    requires Partly(hash, v, n, t, i, done) && i < |t|
    ensures |v| == n + |t| && done <= |t[i]| && v[n + i] == t[i][done..]
  {
  }

  lemma MovingShift(hash: string -> nat, mem: Memory, heads: seq<Ref>, s: Store, p: Progress, he: Ref)
    requires heads != [] && Moving(hash, mem, heads, s, p) && p.bucket < |p.before| && Starts(he, s.refs, |heads| + p.bucket) && he != NULL
    ensures he in mem
    ensures var h, r := Slot(hash, mem[he].key, |heads|), |heads| + p.bucket;
            && Moving(hash, mem[he := mem[he].(next := heads[h])], heads[h := he],
                      Store(Shift(s.refs, r, h), Shift(s.entries, r, h)), p.(done := p.done + 1))
            && Starts(mem[he].next, Shift(s.refs, r, h), r) && Same(s.refs, Shift(s.refs, r, h), r + 1)
  {
    hide Held, Partly, Shift, Same;
    MovingHead(hash, mem, heads, s, p, he);
    var h, r := Slot(hash, mem[he].key, |heads|), |heads| + p.bucket;
    PartlyStep(hash, s.entries, |heads|, p.before, p.bucket, p.done);
    HeldShift(mem, heads, s, r, h);
    ShiftParts(s.refs, r, h);
  }

  lemma ShiftParts<T>(f: seq<seq<T>>, r: nat, h: nat)
    requires h < r < |f| && f[r] != []
    ensures Shift(f, r, h)[r] == f[r][1..] && Same(f, Shift(f, r, h), r + 1)
  {
  }

  lemma MovingNext(hash: string -> nat, mem: Memory, heads: seq<Ref>, s: Store, p: Progress)
    requires Moving(hash, mem, heads, s, p) && p.bucket < |p.before| && p.done == |p.before[p.bucket]|
    ensures Moving(hash, mem, heads, s, Progress(p.before, p.bucket + 1, 0))
  {
    hide Held, Partly;
    PartlyNext(hash, s.entries, |heads|, p.before, p.bucket);
  }

  /** A new table of empty chains in front of the old one. */
  ghost function Beside(n: nat, s: Store): Store { Store(seq(n, _ => []) + s.refs, seq(n, _ => []) + s.entries) }

  lemma MovingStart(hash: string -> nat, mem: Memory, was: seq<Ref>, heads: seq<Ref>, s: Store)
    requires Held(mem, was, s) && TableOk(hash, s.entries) && heads != [] && forall i :: 0 <= i < |heads| ==> heads[i] == NULL
    ensures Moving(hash, mem, heads, Beside(|heads|, s), Progress(s.entries, 0, 0))
  {
    hide Partly, TableOk, Held, Apart, Linked;
    var n, f, v := |heads|, s.refs, s.entries;
    var g: seq<seq<Ref>>, w: seq<Chain> := seq(n, _ => []) + f, seq(n, _ => []) + v;
    PartlyStart(hash, n, v);
    HeldLinked(mem, was, s);
    ApartBeside(n, f);
    forall i | 0 <= i < |g| ensures Linked(mem, g[i], w[i]) {
      if i < n { LinkedNone(mem); }
    }
    MakeHeld(mem, heads, g, w);
  }

  lemma ApartBeside(n: nat, f: seq<seq<Ref>>)
    requires Apart(f)
    ensures Apart(seq(n, _ => []) + f)
  {
    var g: seq<seq<Ref>> := seq(n, _ => []) + f;
    assert forall i :: 0 <= i < |g| ==> g[i] == if i < n then [] else f[i - n];
  }

  lemma LinkedNone(mem: Memory)
    ensures Linked(mem, [], [])
  {
  }

  lemma MovingEnd(hash: string -> nat, mem: Memory, heads: seq<Ref>, s: Store, p: Progress)
    requires Moving(hash, mem, heads, s, p) && p.bucket <= |p.before| && Total(p.before[p.bucket..]) == 0 && p.done == 0
    ensures var n := |heads|;
            && n <= |s.refs| == |s.entries| && Held(mem, heads, Store(s.refs[..n], s.entries[..n]))
            && TableOk(hash, s.entries[..n]) && Total(s.entries[..n]) == Total(p.before)
            && forall key :: Get(hash, s.entries[..n], key) == Get(hash, p.before, key)
  {
    hide TableOk, Get, Total, Linked, Moved;
    PartlyEnd(hash, s.entries, |heads|, p.before, p.bucket);
  }

  /** The old table still has the heads of the chains from i on. */
  ghost predicate OldHeads(heads: seq<Ref>, f: seq<seq<Ref>>, n: nat, i: nat) {
    |f| == n + |heads| && forall q :: i <= q < |heads| ==> heads[q] == Head(f[n + q])
  }

  lemma OldHeadsStart(mem: Memory, heads: seq<Ref>, s: Store, n: nat)
    requires Held(mem, heads, s) && |heads| == |s.refs|
    ensures OldHeads(heads, Beside(n, s).refs, n, 0)
  {
  }

  lemma OldHeadsNext(heads: seq<Ref>, f: seq<seq<Ref>>, g: seq<seq<Ref>>, n: nat, i: nat)
    requires OldHeads(heads, f, n, i) && Same(f, g, n + i + 1) && i < |heads|
    ensures OldHeads(heads, g, n, i + 1)
  {
  }

  lemma OldHeadsAt(heads: seq<Ref>, f: seq<seq<Ref>>, n: nat, i: nat)
    requires OldHeads(heads, f, n, i) && i < |heads|
    ensures Starts(heads[i], f, n + i)
  {
  }

  // ----- one entry more, less or changed

  lemma AddApart(mem: Memory, s: Store, h: nat, r: Ref)
    requires Held(mem, [], s) && h < |s.refs| && r !in mem
    ensures Apart(s.refs[h := [r] + s.refs[h]]) && forall i :: 0 <= i < |s.refs| ==> r !in s.refs[i]
  {
    var f, v := s.refs, s.entries;
    forall i, k | 0 <= i < |f| && 0 <= k < |f[i]| ensures f[i][k] != r { assert Linked(mem, f[i], v[i]); }
    var g := f[h := [r] + f[h]];
    assert forall i, k :: 0 <= i < |g| && 0 <= k < |g[i]| ==>
             g[i][k] == if i == h then if k == 0 then r else f[h][k - 1] else f[i][k];
  }

  lemma HeldAdd(mem: Memory, heads: seq<Ref>, s: Store, h: nat, r: Ref, e: Entry)
    requires Held(mem, heads, s) && h < |heads| && r != NULL && r !in mem
    ensures Held(mem[r := Cell(e.key, e.val, heads[h])], heads[h := r],
                 Store(s.refs[h := [r] + s.refs[h]], s.entries[h := [e] + s.entries[h]]))
  {
    AddApart(mem, s, h, r);
    hide Linked, Apart;
    var f, v, m := s.refs, s.entries, mem[r := Cell(e.key, e.val, heads[h])];
    forall i | 0 <= i < |f| && i != h ensures Linked(m, f[i], v[i]) { LinkedFrame(mem, f[i], v[i], r, m[r]); }
    LinkedCons(mem, r, f[h], e, v[h]);
  }

  /** Memory without an entry: the one before it points past it. */
  function Unlinked(mem: Memory, c: seq<Ref>, k: nat): Memory
    requires k < |c| && (forall j :: 0 <= j < |c| ==> c[j] in mem)
  {
    (if k == 0 then mem else mem[c[k - 1] := mem[c[k - 1]].(next := mem[c[k]].next)]) - {c[k]}
  }

  /** Where the elements of a cut chain were, and what follows them. */
  lemma CutAt<T>(c: seq<T>, k: nat, j: nat)
    requires k < |c| && j < |c| - 1
    ensures Cut(c, k)[j] == c[if j < k then j else j + 1]
    ensures j >= k ==> Cut(c, k)[j..] == c[j + 1..]
    ensures j < k ==> Cut(c, k)[j..][1..] == Cut(c, k)[j + 1..] && c[j..][1..] == c[j + 1..]
    ensures j + 1 == k ==> Cut(c, k)[j + 1..] == c[k + 1..]
    ensures j + 1 < k ==> Cut(c, k)[j + 1..] != [] && Cut(c, k)[j + 1..][0] == c[j + 1..][0]
  {
  }

  lemma CellAt(mem: Memory, c: seq<Ref>, es: Chain, i: nat)
    requires Linked(mem, c, es) && i < |c|
    ensures |es| == |c| && c[i] != NULL && c[i] in mem && mem[c[i]] == CellOf(c[i..], es[i]) && c[i..][1..] == c[i + 1..]
  {
  }

  lemma CutCell(mem: Memory, c: seq<Ref>, es: Chain, k: nat, j: nat)
    requires Linked(mem, c, es) && k < |c| && j < |c| - 1 && forall i, j :: 0 <= i < j < |c| ==> c[i] != c[j]
    ensures var m, d := Unlinked(mem, c, k), Cut(c, k); d[j] != NULL && d[j] in m && m[d[j]] == CellOf(d[j..], Cut(es, k)[j])
  {
    hide Cut, Linked;
    InMemory(mem, c, es);
    CutAt(c, k, j);
    CutAt(es, k, j);
    var i := if j < k then j else j + 1;
    CellAt(mem, c, es, i);
    CellAt(mem, c, es, k);
    if k > 0 { CellAt(mem, c, es, k - 1); }
    assert c[i] != c[k] && (k > 0 && i != k - 1 ==> c[i] != c[k - 1]);
  }

  lemma LinkedCut(mem: Memory, c: seq<Ref>, es: Chain, k: nat)
    requires Linked(mem, c, es) && k < |c| && forall i, j :: 0 <= i < j < |c| ==> c[i] != c[j]
    ensures Linked(Unlinked(mem, c, k), Cut(c, k), Cut(es, k)) && Head(Cut(c, k)) == if k == 0 then mem[c[0]].next else Head(c)
  {
    assert c[0..][1..] == c[1..];
    hide CellOf, Unlinked;
    forall j | 0 <= j < |c| - 1
      ensures var m, d := Unlinked(mem, c, k), Cut(c, k); d[j] != NULL && d[j] in m && m[d[j]] == CellOf(d[j..], Cut(es, k)[j])
    {
      CutCell(mem, c, es, k, j);
    }
    FirstNext(mem, c, es);
  }

  lemma FirstNext(mem: Memory, c: seq<Ref>, es: Chain)
    requires Linked(mem, c, es) && c != []
    ensures mem[c[0]].next == Head(c[1..])
  {
    assert c[0..] == c;
  }

  lemma UnlinkedFrame(mem: Memory, c: seq<Ref>, k: nat, d: seq<Ref>, es: Chain)
    requires k < |c| && (forall j :: 0 <= j < |c| ==> c[j] in mem) && Linked(mem, d, es) && forall j :: 0 <= j < |c| ==> c[j] !in d
    ensures Linked(Unlinked(mem, c, k), d, es)
  {
  }

  lemma CutApart(f: seq<seq<Ref>>, h: nat, k: nat)
    requires Apart(f) && h < |f| && k < |f[h]|
    ensures Apart(f[h := Cut(f[h], k)]) && forall i, j :: 0 <= i < j < |f[h]| ==> f[h][i] != f[h][j]
    ensures forall i, j :: 0 <= i < |f| && i != h && 0 <= j < |f[h]| ==> f[h][j] !in f[i]
  {
    var g := f[h := Cut(f[h], k)];
    assert forall i, j :: 0 <= i < |g| && 0 <= j < |g[i]| ==> g[i][j] == if i == h then f[h][if j < k then j else j + 1] else f[i][j];
  }

  lemma UnlinkedSize(mem: Memory, c: seq<Ref>, k: nat)
    requires k < |c| && (forall j :: 0 <= j < |c| ==> c[j] in mem)
    ensures |Unlinked(mem, c, k)| == |mem| - 1
  {
    assert Unlinked(mem, c, k).Keys == mem.Keys - {c[k]};
  }

  lemma HeldCut(mem: Memory, heads: seq<Ref>, s: Store, h: nat, k: nat)
    requires Held(mem, heads, s) && h < |heads| && k < |s.refs[h]|
    ensures k < |s.entries[h]| && forall j :: 0 <= j < |s.refs[h]| ==> s.refs[h][j] in mem && s.refs[h][j] != NULL
    ensures Held(Unlinked(mem, s.refs[h], k), if k == 0 then heads[h := mem[s.refs[h][0]].next] else heads,
                 Store(s.refs[h := Cut(s.refs[h], k)], s.entries[h := Cut(s.entries[h], k)]))
    ensures |Unlinked(mem, s.refs[h], k)| == |mem| - 1
  {
    hide Held, Unlinked, Cut, Apart, Linked, Head;
    var f, v := s.refs, s.entries;
    HeldLinked(mem, heads, s);
    CutApart(f, h, k);
    InMemory(mem, f[h], v[h]);
    LinkedCut(mem, f[h], v[h], k);
    UnlinkedSize(mem, f[h], k);
    var m, g, w := Unlinked(mem, f[h], k), f[h := Cut(f[h], k)], v[h := Cut(v[h], k)];
    var heads' := if k == 0 then heads[h := mem[f[h][0]].next] else heads;
    forall i | 0 <= i < |g| ensures Linked(m, g[i], w[i]) {
      if i != h { UnlinkedFrame(mem, f[h], k, f[i], v[i]); }
    }
    MakeHeld(m, heads', g, w);
  }

  lemma MakeHeld(mem: Memory, heads: seq<Ref>, f: seq<seq<Ref>>, v: seq<Chain>)
    requires |heads| <= |f| == |v| && Apart(f) && forall i :: 0 <= i < |f| ==> Linked(mem, f[i], v[i])
    requires forall i :: 0 <= i < |heads| ==> heads[i] == Head(f[i])
    ensures Held(mem, heads, Store(f, v))
  {
  }

  lemma HeldLinked(mem: Memory, heads: seq<Ref>, s: Store)
    requires Held(mem, heads, s)
    ensures |heads| <= |s.refs| == |s.entries| && Apart(s.refs) && forall i :: 0 <= i < |s.refs| ==> Linked(mem, s.refs[i], s.entries[i])
    ensures forall i :: 0 <= i < |heads| ==> heads[i] == Head(s.refs[i])
  {
  }

  lemma InMemory(mem: Memory, c: seq<Ref>, es: Chain)
    requires Linked(mem, c, es)
    ensures |c| == |es| && forall j :: 0 <= j < |c| ==> c[j] in mem && c[j] != NULL
  {
  }

  lemma HeldSet(mem: Memory, heads: seq<Ref>, s: Store, h: nat, k: nat, val: Val)
    requires Held(mem, heads, s) && h < |s.refs| && k < |s.refs[h]|
    ensures s.refs[h][k] in mem && k < |s.entries[h]|
    ensures var r := s.refs[h][k];
            Held(mem[r := mem[r].(val := val)], heads, Store(s.refs, s.entries[h := s.entries[h][k := Entry(s.entries[h][k].key, val)]]))
  {
    var f, v := s.refs, s.entries;
    assert Linked(mem, f[h], v[h]);
    var r := f[h][k];
    var m, w := mem[r := mem[r].(val := val)], v[h := v[h][k := Entry(v[h][k].key, val)]];
    forall i | 0 <= i < |f| ensures Linked(m, f[i], w[i]) {
      assert Linked(mem, f[i], v[i]);
      if i != h { LinkedFrame(mem, f[i], v[i], r, m[r]); }
    }
  }

  /** The entry at position k of a chain. */
  lemma LinkedAt(mem: Memory, heads: seq<Ref>, s: Store, h: nat, k: nat)
    requires Held(mem, heads, s) && h < |heads| && k <= |s.refs[h]|
    ensures |s.entries[h]| == |s.refs[h]| && heads[h] == Head(s.refs[h][0..])
    ensures Head(s.refs[h][k..]) == NULL <==> k == |s.refs[h]|
    ensures k < |s.refs[h]| ==> s.refs[h][k] in mem && mem[s.refs[h][k]] == Cell(s.entries[h][k].key, s.entries[h][k].val, Head(s.refs[h][k + 1..]))
  {
    assert Linked(mem, s.refs[h], s.entries[h]) && s.refs[h][0..] == s.refs[h];
    if k < |s.refs[h]| { assert s.refs[h][k..][1..] == s.refs[h][k + 1..]; }
  }

  // ----- a table and its map

  /** The chains are linked in memory with their heads in the table, no other entry is allocated, and together they
      are the map. */
  ghost predicate Good(hash: string -> nat, mem: Memory, heads: seq<Ref>, s: Store, m: map<string, Val>) {
    match s
    case Store(f, v) =>
      && |f| == |v| == |heads| && Held(mem, heads, s) && TableOk(hash, v) && Refines(hash, v, m)
      && |mem| == Total(v) && |mem| <= |heads| && (heads == [] || (PowerOfTwo(|heads|) && |heads| >= INITIAL_SIZE))
  }

  lemma GoodAdd(hash: string -> nat, mem: Memory, heads: seq<Ref>, s: Store, m: map<string, Val>, h: nat, r: Ref, e: Entry)
    requires Good(hash, mem, heads, s, m) && e.key !in m && |mem| < |heads| && h == Slot(hash, e.key, |heads|) && r != NULL && r !in mem
    ensures |s.refs| == |s.entries| == |heads|
    ensures Good(hash, mem[r := Cell(e.key, e.val, heads[h])], heads[h := r],
                 Store(s.refs[h := [r] + s.refs[h]], s.entries[h := [e] + s.entries[h]]), m[e.key := e.val])
  {
    hide Held, TableOk, Total, Get, PowerOfTwo;
    assert Get(hash, s.entries, e.key) == None;
    AddKeeps(hash, s.entries, e);
    HeldAdd(mem, heads, s, h, r, e);
    assert mem[r := Cell(e.key, e.val, heads[h])].Keys == mem.Keys + {r};
  }

  lemma GoodSet(hash: string -> nat, mem: Memory, heads: seq<Ref>, s: Store, m: map<string, Val>, h: nat, k: nat, val: Val)
    requires Good(hash, mem, heads, s, m) && h < |s.refs| == |s.entries| && k < |s.refs[h]| == |s.entries[h]|
    ensures s.refs[h][k] in mem
    ensures var r, key := s.refs[h][k], s.entries[h][k].key;
            Good(hash, mem[r := mem[r].(val := val)], heads, s.(entries := s.entries[h := s.entries[h][k := Entry(key, val)]]), m[key := val])
  {
    hide Held, TableOk, Total, Get, PowerOfTwo;
    SetKeeps(hash, s.entries, h, k, val);
    HeldSet(mem, heads, s, h, k, val);
    var r := s.refs[h][k];
    assert mem[r := mem[r].(val := val)].Keys == mem.Keys;
  }

  lemma GoodCut(hash: string -> nat, mem: Memory, heads: seq<Ref>, s: Store, m: map<string, Val>, h: nat, k: nat)
    requires Good(hash, mem, heads, s, m) && h < |heads| == |s.refs| == |s.entries| && k < |s.refs[h]| == |s.entries[h]|
    ensures forall j :: 0 <= j < |s.refs[h]| ==> s.refs[h][j] in mem && s.refs[h][j] != NULL
    ensures Good(hash, Unlinked(mem, s.refs[h], k), if k == 0 then heads[h := mem[s.refs[h][0]].next] else heads,
                 Store(s.refs[h := Cut(s.refs[h], k)], s.entries[h := Cut(s.entries[h], k)]), m - {s.entries[h][k].key})
  {
    hide Held, TableOk, Total, Get, PowerOfTwo, Unlinked;
    HeldCut(mem, heads, s, h, k);
    DeleteKeeps(hash, s.entries, h, k);
  }

  lemma GoodParts(hash: string -> nat, mem: Memory, heads: seq<Ref>, s: Store, m: map<string, Val>)
    requires Good(hash, mem, heads, s, m)
    ensures |s.refs| == |s.entries| == |heads| && Held(mem, heads, s) && TableOk(hash, s.entries) && Refines(hash, s.entries, m)
    ensures |mem| == Total(s.entries) <= |heads| && (heads == [] || (PowerOfTwo(|heads|) && |heads| >= INITIAL_SIZE))
  {
  }

  /** The same map in another table. */
  lemma GoodMoved(hash: string -> nat, mem: Memory, heads: seq<Ref>, s: Store, m: map<string, Val>, mem': Memory, heads': seq<Ref>, s': Store)
    requires Good(hash, mem, heads, s, m) && mem'.Keys == mem.Keys && Held(mem', heads', s') && |s'.refs| == |s'.entries| == |heads'|
    requires TableOk(hash, s'.entries) && Total(s'.entries) == Total(s.entries) && forall key :: Get(hash, s'.entries, key) == Get(hash, s.entries, key)
    requires |mem| <= |heads'| && PowerOfTwo(|heads'|) && |heads'| >= INITIAL_SIZE
    ensures Good(hash, mem', heads', s', m)
  {
    hide Held, TableOk, Total, Get, PowerOfTwo;
    assert |mem'| == |mem'.Keys| == |mem.Keys|;
  }

  // ----- the table

  class HashTable {
    const hash: string -> nat
    var mem: Memory
    var table: array<Ref>
    var used: nat
    ghost var store: Store
    ghost var contents: map<string, Val>

    ghost predicate Valid()
      reads this, table
    {
      Good(hash, mem, table[..], store, contents) && used == |mem|
    }

    constructor (hash: string -> nat)
      ensures Valid() && this.hash == hash && contents == map[] && fresh(table) && table.Length == 0
    {
      this.hash, mem, used, contents, store := hash, map[], 0, map[], Store([], []);
      table := new Ref[0];
    }

    /** `dictExpand` to at least as many buckets as there are entries. */
    method Expand(size: nat)
      requires Valid() && used <= size
      modifies this
      ensures Valid() && fresh(table) && used == old(used) && contents == old(contents) && mem.Keys == old(mem.Keys)
      ensures table.Length >= size && (table.Length == INITIAL_SIZE || table.Length < 2 * size)
    {
      hide Good, Held, TableOk, Total, Get, PowerOfTwo;
      GoodParts(hash, mem, table[..], store, contents);
      var n := NextPower(size);
      var to := new Ref[n](_ => NULL);
      ghost var s := Rehash(to);
      GoodMoved(hash, old(mem), table[..], store, contents, mem, to[..], s);
      assert |mem| == |mem.Keys| == |old(mem).Keys|;
      table, store := to, s;
    }

    /** Every entry is taken from its old chain to the head of its new one. */
    method Rehash(to: array<Ref>) returns (ghost s: Store)
      requires |store.refs| == |store.entries| == table.Length && Held(mem, table[..], store) && TableOk(hash, store.entries) && used == Total(store.entries)
      requires to.Length > 0 && to != table && forall i :: 0 <= i < to.Length ==> to[i] == NULL
      modifies to, this`mem
      ensures |s.refs| == |s.entries| == to.Length && Held(mem, to[..], s) && mem.Keys == old(mem.Keys)
      ensures TableOk(hash, s.entries) && Total(s.entries) == used
      ensures forall key :: Get(hash, s.entries, key) == Get(hash, store.entries, key)
    {
      hide Held, Moving, Total, TableOk, Get, OldHeads, Starts, Same, Beside;
      ghost var n, t, heads := to.Length, store.entries, table[..];
      MovingStart(hash, mem, heads, to[..], store);
      OldHeadsStart(mem, heads, store, n);
      s := Beside(n, store);
      var i, left := 0, used;
      assert t[0..] == t;
      while i < table.Length && left > 0
        invariant 0 <= i <= table.Length && left == Total(t[i..]) && mem.Keys == old(mem.Keys)
        invariant table[..] == heads && Moving(hash, mem, to[..], s, Progress(t, i, 0)) && OldHeads(heads, s.refs, n, i)
      {
        OldHeadsAt(heads, s.refs, n, i);
        ghost var g := s.refs;
        var count;
        count, s := MoveChain(to, table[i], s, Progress(t, i, 0));
        OldHeadsNext(heads, g, s.refs, n, i);
        TotalFrom(t, i);
        left := left - count;
        i := i + 1;
      }
      if i == table.Length { TotalNothing(t[i..]); }
      assert left == 0;
      MovingEnd(hash, mem, to[..], s, Progress(t, i, 0));
      s := Store(s.refs[..n], s.entries[..n]);
    }

    /** The entries of one old chain go to their new ones. */
    method MoveChain(to: array<Ref>, first: Ref, ghost s0: Store, ghost p: Progress) returns (count: nat, ghost s: Store)
      requires to.Length > 0 && Moving(hash, mem, to[..], s0, p) && p.bucket < |p.before| && p.done == 0 && Starts(first, s0.refs, to.Length + p.bucket)
      modifies to, this`mem
      ensures Moving(hash, mem, to[..], s, Progress(p.before, p.bucket + 1, 0)) && count == |p.before[p.bucket]|
      ensures Same(s0.refs, s.refs, to.Length + p.bucket + 1) && mem.Keys == old(mem.Keys)
    {
      hide Moving, Shift;
      ghost var r := to.Length + p.bucket;
      s, count := s0, 0;
      var he := first;
      MovingHead(hash, mem, to[..], s, p, he);
      while he != NULL
        invariant Moving(hash, mem, to[..], s, p.(done := count)) && Starts(he, s.refs, r) && Same(s0.refs, s.refs, r + 1)
        invariant count <= |p.before[p.bucket]| && (he == NULL <==> count == |p.before[p.bucket]|) && mem.Keys == old(mem.Keys)
        decreases |p.before[p.bucket]| - count
      {
        MovingHead(hash, mem, to[..], s, p.(done := count), he);
        MovingShift(hash, mem, to[..], s, p.(done := count), he);
        var nextHe := mem[he].next;
        var h := Slot(hash, mem[he].key, to.Length);
        ghost var heads := to[..];
        mem := mem[he := mem[he].(next := to[h])];
        to[h] := he;
        assert to[..] == heads[h := he];
        s := Store(Shift(s.refs, r, h), Shift(s.entries, r, h));
        count := count + 1;
        he := nextHe;
        MovingHead(hash, mem, to[..], s, p.(done := count), he);
      }
      MovingNext(hash, mem, to[..], s, p.(done := count));
    }

    /** Walks the key's chain: the entry, if there, and the one before it. */
    method Walk(key: string) returns (h: nat, de: Ref, prevde: Ref, ghost k: nat)
      requires Valid() && table.Length > 0
      ensures h == Slot(hash, key, table.Length) && |store.refs| == |store.entries| == table.Length && k <= |store.refs[h]| == |store.entries[h]|
      ensures de == Head(store.refs[h][k..]) && prevde == if k == 0 then NULL else store.refs[h][k - 1]
      ensures (de != NULL <==> key in contents) && (de != NULL <==> k < |store.refs[h]|)
      ensures de != NULL ==> de in mem && mem[de].key == key && store.entries[h][k] == Entry(key, contents[key]) && mem[de].val == contents[key]
    {
      hide Good, Held, TableOk, Total, PowerOfTwo;
      GoodParts(hash, mem, table[..], store, contents);
      h := Slot(hash, key, table.Length);
      ghost var c, es := store.refs[h], store.entries[h];
      LinkedAt(mem, table[..], store, h, 0);
      de, prevde, k := table[h], NULL, 0;
      while de != NULL && mem[de].key != key
        invariant 0 <= k <= |c| && de == Head(c[k..]) && prevde == (if k == 0 then NULL else c[k - 1])
        invariant (de == NULL <==> k == |c|) && (de != NULL ==> de in mem && mem[de] == Cell(es[k].key, es[k].val, Head(c[k + 1..])))
        invariant forall i :: 0 <= i < k ==> es[i].key != key
        decreases |c| - k
      {
        prevde := de;
        de := mem[de].next;
        k := k + 1;
        LinkedAt(mem, table[..], store, h, k);
      }
      LookupNone(es, key);
      assert Get(hash, store.entries, key) == Lookup(es, key);
      if de != NULL { KeyAt(hash, store.entries, h, k); }
    }

    /** `_dictExpandIfNeeded`. */
    method ExpandIfNeeded()
      requires Valid()
      modifies this
      ensures Valid() && used < table.Length && used == old(used) && contents == old(contents) && mem.Keys == old(mem.Keys)
      ensures table == old(table) || fresh(table)
    {
      hide Good;
      GoodParts(hash, mem, table[..], store, contents);
      if table.Length == 0 {
        Expand(INITIAL_SIZE);
      } else if used == table.Length {
        Expand(table.Length * 2);
      }
    }

    /** `dictAdd`, with the address of the new entry: refused exactly when the key is there. */
    method Add(key: string, val: Val, entry: Ref) returns (ok: bool)
      requires Valid() && entry != NULL && entry !in mem
      modifies this, table
      ensures Valid() && (table == old(table) || fresh(table))
      ensures ok <==> key !in old(contents)
      ensures contents == if ok then old(contents)[key := val] else old(contents)
    {
      hide Good;
      ExpandIfNeeded();
      var index, de, _, _ := Walk(key);
      if de != NULL { return false; }
      ghost var heads, e := table[..], Entry(key, val);
      GoodAdd(hash, mem, heads, store, contents, index, entry, e);
      mem := mem[entry := Cell(key, val, table[index])];
      table[index] := entry;
      assert table[..] == heads[index := entry];
      store := Store(store.refs[index := [entry] + store.refs[index]], store.entries[index := [e] + store.entries[index]]);
      used := used + 1;
      contents := contents[key := val];
      return true;
    }

    /** `dictFind`. */
    method Find(key: string) returns (he: Ref)
      requires Valid()
      ensures he != NULL <==> key in contents
      ensures he != NULL ==> he in mem && mem[he].key == key && mem[he].val == contents[key]
    {
      if table.Length == 0 {
        assert Get(hash, store.entries, key) == None;
        return NULL;
      }
      var _, de, _, _ := Walk(key);
      he := de;
    }

    /** `dictReplace`: whether the key was new. */
    method Replace(key: string, val: Val, entry: Ref) returns (added: bool)
      requires Valid() && entry != NULL && entry !in mem
      modifies this, table
      ensures Valid() && (table == old(table) || fresh(table))
      ensures (added <==> key !in old(contents)) && contents == old(contents)[key := val]
    {
      hide Good;
      added := Add(key, val, entry);
      if added { return; }
      NotEmpty(hash, mem, table[..], store, contents, key);
      var h, de, _, k := Walk(key);
      GoodSet(hash, mem, table[..], store, contents, h, k, val);
      assert |mem[de := mem[de].(val := val)]| == |mem| by { assert mem[de := mem[de].(val := val)].Keys == mem.Keys; }
      mem := mem[de := mem[de].(val := val)];
      store := store.(entries := store.entries[h := store.entries[h][k := Entry(key, val)]]);
      contents := contents[key := val];
    }

    /** `dictDelete`: the entry is unlinked and freed. */
    method Delete(key: string) returns (ok: bool, ghost k: nat)
      requires Valid()
      modifies this`used, this`contents, this`mem, this`store, table
      ensures Valid() && (ok <==> key in old(contents)) && contents == old(contents) - {key}
      ensures !ok ==> store == old(store)
      ensures ok ==> table.Length > 0 && CutFrom(old(store), Slot(hash, key, table.Length), k, key, store)
    {
      hide Good;
      if table.Length == 0 {
        if key in contents { NotEmpty(hash, mem, table[..], store, contents, key); }
        return false, 0;
      }
      var h, de, prevde;
      h, de, prevde, k := Walk(key);
      if de == NULL { return false, k; }
      ghost var c, heads := store.refs[h], table[..];
      GoodCut(hash, mem, heads, store, contents, h, k);
      UnlinkedSize(mem, c, k);
      ghost var after := Unlinked(mem, c, k);
      if prevde != NULL {
        mem := mem[prevde := mem[prevde].(next := mem[de].next)];
      } else {
        table[h] := mem[de].next;
        assert table[..] == heads[h := mem[de].next];
      }
      mem := mem - {de};
      assert mem == after;
      store := Store(store.refs[h := Cut(c, k)], store.entries[h := Cut(store.entries[h], k)]);
      used := used - 1;
      contents := contents - {key};
      return true, k;
    }
  }

  /** A store without entry k of chain h, which has the key. */
  ghost predicate CutFrom(s: Store, h: nat, k: nat, key: string, s': Store) {
    && h < |s.refs| == |s.entries| && k < |s.refs[h]| == |s.entries[h]| && s.entries[h][k].key == key
    && s' == Store(s.refs[h := Cut(s.refs[h], k)], s.entries[h := Cut(s.entries[h], k)])
  }

  lemma NotEmpty(hash: string -> nat, mem: Memory, heads: seq<Ref>, s: Store, m: map<string, Val>, key: string)
    requires Good(hash, mem, heads, s, m) && key in m
    ensures heads != []
  {
    assert Get(hash, s.entries, key).Some?;
  }

  lemma KeyAt(hash: string -> nat, t: seq<Chain>, i: nat, k: nat)
    requires TableOk(hash, t) && i < |t| && k < |t[i]|
    ensures Get(hash, t, t[i][k].key) == Some(t[i][k].val)
  {
    assert ChainOk(hash, |t|, i, t[i]);
    LookupAt(t[i], k);
  }

  lemma EmptyTable(hash: string -> nat, t: seq<Chain>)
    requires forall i :: 0 <= i < |t| ==> t[i] == []
    ensures TableOk(hash, t) && Total(t) == 0 && forall key :: Get(hash, t, key) == None
  {
    TotalEmpty(t);
  }

  lemma TotalFrom(t: seq<Chain>, i: nat)
    requires i < |t|
    ensures Total(t[i..]) == |t[i]| + Total(t[i + 1..])
  {
    assert t[i..][1..] == t[i + 1..];
  }

  lemma TotalNothing(t: seq<Chain>)
    requires t == []
    ensures Total(t) == 0
  {
  }

  // ----- iterating

  /** All entries, bucket by bucket. */
  function Flat(t: seq<Chain>): Chain {
    if t == [] then [] else t[0] + Flat(t[1..])
  }

  lemma FlatFrom(t: seq<Chain>, i: nat)
    requires i < |t|
    ensures Flat(t[i..]) == t[i] + Flat(t[i + 1..])
  {
    assert t[i..][1..] == t[i + 1..];
  }

  /** A key is in the map exactly when an entry has it. */
  lemma {:induction false} FlatHolds(t: seq<Chain>, e: Entry)
    ensures e in Flat(t) <==> exists i :: 0 <= i < |t| && e in t[i]
  {
    if t != [] {
      FlatHolds(t[1..], e);
      if e in Flat(t[1..]) {
        var i :| 0 <= i < |t[1..]| && e in t[1..][i];
        assert e in t[i + 1];
      }
      assert forall i :: 1 <= i < |t| ==> t[i] == t[1..][i - 1];
    }
  }

  lemma {:induction false} FlatDistinct(hash: string -> nat, size: nat, t: seq<Chain>, from: nat)
    requires size > 0 && from + |t| <= size && forall i :: 0 <= i < |t| ==> ChainOk(hash, size, from + i, t[i])
    ensures DistinctKeys(Flat(t)) && forall j :: 0 <= j < |Flat(t)| ==> Slot(hash, Flat(t)[j].key, size) >= from
  {
    if t != [] {
      FlatDistinct(hash, size, t[1..], from + 1);
      assert ChainOk(hash, size, from, t[0]);
      var c, rest := t[0], Flat(t[1..]);
      var all: Chain := c + rest;
      forall i, j | 0 <= i < j < |all| ensures all[i].key != all[j].key {
        if i < |c| <= j { assert Slot(hash, c[i].key, size) < Slot(hash, rest[j - |c|].key, size); }
      }
    }
  }

  /** The entries are the map: each key once, with its value. */
  lemma FlatIsMap(hash: string -> nat, t: seq<Chain>, m: map<string, Val>)
    requires TableOk(hash, t) && Refines(hash, t, m)
    ensures DistinctKeys(Flat(t))
    ensures forall key, val :: Entry(key, val) in Flat(t) <==> key in m && m[key] == val
  {
    if t != [] { FlatDistinct(hash, |t|, t, 0); }
    forall key, val ensures Entry(key, val) in Flat(t) <==> key in m && m[key] == val {
      FlatHolds(t, Entry(key, val));
      HeldIsMapped(hash, t, m, key, val);
    }
  }

  lemma HeldIsMapped(hash: string -> nat, t: seq<Chain>, m: map<string, Val>, key: string, val: Val)
    requires TableOk(hash, t) && Refines(hash, t, m)
    ensures (exists i :: 0 <= i < |t| && Entry(key, val) in t[i]) <==> key in m && m[key] == val
  {
    assert Get(hash, t, key) == if key in m then Some(m[key]) else None;
    if i :| 0 <= i < |t| && Entry(key, val) in t[i] {
      var j :| 0 <= j < |t[i]| && t[i][j] == Entry(key, val);
      assert ChainOk(hash, |t|, i, t[i]);
      LookupAt(t[i], j);
    }
    if key in m && m[key] == val {
      var i := Slot(hash, key, |t|);
      LookupEntry(t[i], key);
      assert Entry(key, val) in t[i];
    }
  }

  lemma {:induction false} LookupEntry(c: Chain, key: string)
    requires Lookup(c, key).Some?
    ensures Entry(key, Lookup(c, key).value) in c
  {
    if c[0].key != key { LookupEntry(c[1..], key); }
  }

  /** The entries of the buckets behind one. */
  function Rest(t: seq<Chain>, index: int): Chain {
    if 0 <= index + 1 <= |t| then Flat(t[index + 1..]) else []
  }

  lemma RestNext(t: seq<Chain>, index: int)
    requires -1 <= index
    ensures Rest(t, index) == if index + 1 < |t| then t[index + 1] + Rest(t, index + 1) else []
  {
    if index + 1 < |t| { FlatFrom(t, index + 1); }
  }

  /** The last n of a chain. */
  function Back<T>(c: seq<T>, n: nat): seq<T>
    requires n <= |c|
  {
    c[|c| - n..]
  }

  /** The entries to come behind bucket `index` and, inside it, its last n. */
  function Coming(v: seq<Chain>, index: int, inside: bool, n: nat): Chain
    requires inside ==> 0 <= index < |v| && n <= |v[index]|
  {
    (if inside then Back(v[index], n) else []) + Rest(v, index)
  }

  /** From one bucket to the next. */
  lemma ComingNext(mem: Memory, heads: seq<Ref>, s: Store, index: int)
    requires Held(mem, heads, s) && |heads| == |s.refs| && index >= 0
    ensures |s.entries| == |heads| && (index >= |heads| ==> Coming(s.entries, index - 1, false, 0) == [] == Coming(s.entries, index, false, 0))
    ensures index < |heads| ==>
              && |s.entries[index]| == |s.refs[index]| && heads[index] == Head(Back(s.refs[index], |s.refs[index]|))
              && Coming(s.entries, index - 1, false, 0) == Coming(s.entries, index, true, |s.refs[index]|)
  {
    RestNext(s.entries, index - 1);
    if index >= |heads| {
      RestNext(s.entries, index);
    } else {
      assert Linked(mem, s.refs[index], s.entries[index]);
      assert Back(s.entries[index], |s.entries[index]|) == s.entries[index];
      assert Back(s.refs[index], |s.refs[index]|) == s.refs[index];
    }
  }

  /** The entry before the last n - 1 of a chain. */
  lemma Standing(mem: Memory, heads: seq<Ref>, s: Store, i: nat, n: nat)
    requires Held(mem, heads, s) && i < |heads| && n <= |s.refs[i]|
    ensures |s.entries[i]| == |s.refs[i]| && (n == 0 ==> Coming(s.entries, i, true, n) == Coming(s.entries, i, false, 0))
    ensures var r := Head(Back(s.refs[i], n));
            && (r == NULL <==> n == 0)
            && (n > 0 ==>
                  && r == s.refs[i][|s.refs[i]| - n] && r in mem && mem[r].next == Head(Back(s.refs[i], n - 1))
                  && Coming(s.entries, i, true, n) == [Entry(mem[r].key, mem[r].val)] + Coming(s.entries, i, true, n - 1))
  {
    hide Rest, Held;
    HeldLinked(mem, heads, s);
    LinkedAt(mem, heads, s, i, |s.refs[i]| - n);
    if n > 0 {
      ComingOne(s.entries, i, n);
    } else {
      assert Back(s.entries[i], 0) == [];
    }
  }

  lemma ComingOne(v: seq<Chain>, i: nat, n: nat)
    requires i < |v| && 0 < n <= |v[i]|
    ensures Coming(v, i, true, n) == [v[i][|v[i]| - n]] + Coming(v, i, true, n - 1)
  {
    hide Rest;
    assert Back(v[i], n) == [v[i][|v[i]| - n]] + Back(v[i], n - 1);
    Assoc([v[i][|v[i]| - n]], Back(v[i], n - 1), Rest(v, i));
  }

  /** The saved address is that of the entries still to come in the chain. */
  ghost predicate Aimed(s: Store, index: int, entry: Ref, nextEntry: Ref, left: nat) {
    match s
    case Store(f, v) =>
      && -1 <= index && |f| == |v|
      && (entry != NULL ==> 0 <= index < |f| && left <= |f[index]| == |v[index]| && nextEntry == Head(Back(f[index], left)))
  }

  class Iterator {
    const ht: HashTable
    var index: int
    var entry: Ref
    var nextEntry: Ref
    /** How many entries of the chain at work are still to come. */
    ghost var left: nat

    constructor (ht: HashTable)
      requires ht.Valid()
      ensures this.ht == ht && index == -1 && entry == NULL && Valid() && Remaining() == Flat(ht.store.entries)
    {
      this.ht, index, entry, nextEntry, left := ht, -1, NULL, NULL, 0;
      new;
      RestStart(ht.store.entries);
    }

    ghost predicate Valid()
      reads this, ht
    {
      Aimed(ht.store, index, entry, nextEntry, left)
    }

    /** The entries still to come. */
    ghost function Remaining(): Chain
      requires Valid()
      reads this, ht
    {
      Coming(ht.store.entries, index, entry != NULL, if entry != NULL then left else 0)
    }

    /** The entry last returned stands before those still to come. */
    ghost predicate Returned()
      reads this, ht
    {
      && Valid() && entry != NULL && left < |ht.store.refs[index]| && entry in ht.mem
      && ht.store.refs[index][|ht.store.refs[index]| - left - 1] == entry
    }

    /** `dictNext`: it follows saved addresses only, and every entry it looks at is allocated. */
    method Next() returns (r: Ref)
      requires Valid() && ht.Valid()
      modifies this
      ensures Valid() && r == entry
      ensures r != NULL ==> Returned()
      ensures old(Remaining()) == [] ==> r == NULL && Remaining() == []
      ensures old(Remaining()) != [] ==>
                r != NULL && Entry(ht.mem[r].key, ht.mem[r].val) == old(Remaining())[0] && Remaining() == old(Remaining())[1..]
    {
      hide Coming, Good, Held, Back, Head;
      GoodParts(ht.hash, ht.mem, ht.table[..], ht.store, ht.contents);
      ghost var all, heads := Remaining(), ht.table[..];
      while true
        invariant Valid() && Remaining() == all
        decreases ht.table.Length - index, if entry != NULL then 1 else 0
      {
        ghost var n: nat := left;
        if entry == NULL {
          index := index + 1;
          ComingNext(ht.mem, heads, ht.store, index);
          if index >= ht.table.Length { return NULL; }
          entry := ht.table[index];
          n := |ht.store.refs[index]|;
        } else {
          entry := nextEntry;
        }
        Standing(ht.mem, heads, ht.store, index, n);
        if entry != NULL {
          nextEntry := ht.mem[entry].next;
          left := n - 1;
          return entry;
        }
      }
    }
  }

  predicate HasKey(c: Chain, key: string) { exists i :: 0 <= i < |c| && c[i].key == key }

  /** The map without the doomed keys visited so far. */
  ghost predicate Pruned(now: map<string, Val>, m: map<string, Val>, doomed: set<string>, visited: Chain) {
    forall key :: (key in now <==> key in m && !(key in doomed && HasKey(visited, key))) && (key in now ==> now[key] == m[key])
  }

  lemma PrunedNext(now: map<string, Val>, m: map<string, Val>, doomed: set<string>, visited: Chain, e: Entry)
    requires Pruned(now, m, doomed, visited)
    ensures Pruned(if e.key in doomed then now - {e.key} else now, m, doomed, visited + [e])
  {
    forall key ensures HasKey(visited + [e], key) <==> HasKey(visited, key) || key == e.key {
      var all: Chain := visited + [e];
      if HasKey(visited, key) {
        var i :| 0 <= i < |visited| && visited[i].key == key;
        assert all[i].key == key;
      }
      assert all[|visited|] == e;
    }
  }

  lemma PrunedAll(now: map<string, Val>, m: map<string, Val>, doomed: set<string>, visited: Chain)
    requires Pruned(now, m, doomed, visited) && forall key :: key in m ==> Entry(key, m[key]) in visited
    ensures now == m - doomed
  {
    forall key | key in m ensures HasKey(visited, key) {
      var i :| 0 <= i < |visited| && visited[i] == Entry(key, m[key]);
    }
  }

  /** One entry visited, and deleted if it is doomed. */
  method VisitOne(ht: HashTable, it: Iterator, doomed: set<string>) returns (e: Option<Entry>)
    requires ht.Valid() && it.Valid() && it.ht == ht
    modifies it, ht`used, ht`contents, ht`mem, ht`store, ht.table
    ensures ht.Valid() && it.Valid()
    ensures e.None? ==> old(it.Remaining()) == [] && ht.contents == old(ht.contents)
    ensures e.Some? ==> old(it.Remaining()) != [] && e.value == old(it.Remaining())[0] && it.Remaining() == old(it.Remaining())[1..]
    ensures e.Some? ==> ht.contents == if e.value.key in doomed then old(ht.contents) - {e.value.key} else old(ht.contents)
  {
    hide Good, Rest, Back;
    var r := it.Next();
    if r == NULL { return None; }
    e := Some(Entry(ht.mem[r].key, ht.mem[r].val));
    if e.value.key in doomed { DeleteReturned(ht, it, e.value.key); }
  }

  lemma AllMapped(ht: HashTable)
    requires ht.Valid()
    ensures forall key :: key in ht.contents ==> Entry(key, ht.contents[key]) in Flat(ht.store.entries)
  {
    FlatIsMap(ht.hash, ht.store.entries, ht.contents);
  }

  /** The use of an iterator the source allows for: each entry comes once, even if some are deleted, and freed, as
      soon as they are returned. */
  method VisitAndDelete(ht: HashTable, doomed: set<string>) returns (visited: Chain)
    requires ht.Valid()
    modifies ht, ht.table
    ensures ht.Valid() && visited == Flat(old(ht.store.entries))
    ensures ht.contents == old(ht.contents) - doomed
  {
    hide Flat, Pruned, Split, HashTable.Valid, Iterator.Valid, Iterator.Remaining;
    ghost var all, m := Flat(ht.store.entries), ht.contents;
    AllMapped(ht);
    var it := new Iterator(ht);
    visited := [];
    PrunedStart(m, doomed);
    SplitStart(all);
    while true
      invariant ht.Valid() && it.Valid() && ht.table == old(ht.table)
      invariant Split(all, visited, it.Remaining()) && Pruned(ht.contents, m, doomed, visited)
      decreases |it.Remaining()|
    {
      ghost var before, rest := ht.contents, it.Remaining();
      var e := VisitOne(ht, it, doomed);
      if e.None? {
        SplitEnd(all, visited);
        break;
      }
      PrunedNext(before, m, doomed, visited, e.value);
      SplitNext(all, visited, rest);
      visited := visited + [e.value];
    }
    PrunedAll(ht.contents, m, doomed, visited);
  }

  ghost predicate Split(all: Chain, a: Chain, b: Chain) { all == a + b }

  lemma SplitStart(all: Chain)
    ensures Split(all, [], all)
  {
  }

  lemma SplitNext(all: Chain, a: Chain, b: Chain)
    requires Split(all, a, b) && b != []
    ensures Split(all, a + [b[0]], b[1..])
  {
  }

  lemma SplitEnd(all: Chain, a: Chain)
    requires Split(all, a, [])
    ensures a == all
  {
  }

  lemma RestStart(t: seq<Chain>)
    ensures Rest(t, -1) == Flat(t)
  {
    assert t[0..] == t;
  }

  lemma PrunedStart(m: map<string, Val>, doomed: set<string>)
    ensures Pruned(m, m, doomed, [])
  {
  }

  /** Cutting out the entry before the last n, the one with the key, leaves these and the chains behind. */
  lemma CutBehind(hash: string -> nat, mem: Memory, heads: seq<Ref>, s: Store, s': Store, index: nat, n: nat, k: nat, key: string)
    requires Held(mem, heads, s) && TableOk(hash, s.entries) && index < |s.refs| && n < |s.refs[index]| && |s.entries[index]| == |s.refs[index]|
    requires s.entries[index][|s.entries[index]| - n - 1].key == key && CutFrom(s, Slot(hash, key, |s.entries|), k, key, s')
    ensures n <= |s'.refs[index]| == |s'.entries[index]| && Back(s'.refs[index], n) == Back(s.refs[index], n)
    ensures Back(s'.entries[index], n) == Back(s.entries[index], n) && Rest(s'.entries, index) == Rest(s.entries, index)
  {
    hide Held;
    assert ChainOk(hash, |s.entries|, index, s.entries[index]);
    assert k == |s.entries[index]| - n - 1;
    assert s'.entries[index + 1..] == s.entries[index + 1..];
  }

  method DeleteReturned(ht: HashTable, it: Iterator, key: string)
    requires ht.Valid() && it.Returned() && it.ht == ht && ht.mem[it.entry].key == key
    modifies ht`used, ht`contents, ht`mem, ht`store, ht.table
    ensures ht.Valid() && it.Valid() && it.Remaining() == old(it.Remaining())
    ensures ht.contents == old(ht.contents) - {key}
  {
    hide Rest, Good, TableOk, Refines, Total, Held, CutFrom;
    GoodParts(ht.hash, ht.mem, ht.table[..], ht.store, ht.contents);
    ghost var s, mem, heads := ht.store, ht.mem, ht.table[..];
    LinkedAt(mem, heads, s, it.index, |s.refs[it.index]| - it.left - 1);
    KeyThere(ht.hash, s.entries, ht.contents, it.index, |s.refs[it.index]| - it.left - 1);
    var ok, k := ht.Delete(key);
    CutBehind(ht.hash, mem, heads, s, ht.store, it.index, it.left, k, key);
    CutLengths(s, ht.store, key, k, Slot(ht.hash, key, ht.table.Length));
  }

  lemma KeyThere(hash: string -> nat, t: seq<Chain>, m: map<string, Val>, i: nat, k: nat)
    requires TableOk(hash, t) && Refines(hash, t, m) && i < |t| && k < |t[i]|
    ensures t[i][k].key in m
  {
    KeyAt(hash, t, i, k);
  }

  lemma CutLengths(s: Store, s': Store, key: string, k: nat, h: nat)
    requires CutFrom(s, h, k, key, s')
    ensures |s'.refs| == |s.refs| == |s'.entries|
  {
  }
}
